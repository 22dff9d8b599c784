/** Carts, their lines, the merge of a guest cart into a user's cart, and the set-up of a request's cart. */
module CartMerge {
  import opened Wrappers
  import opened Folds

  datatype Line = Line(cart: nat, product: nat, quantity: nat)

  /** A cart of a user, or of a guest who knows its uuid. */
  datatype Cart = Cart(user: Option<nat>, uuid: string)

  type Lines = map<nat, Line>

  datatype Tables = Tables(carts: map<nat, Cart>, lines: Lines)

  // ----- constraints of the tables -----

  /** One line per product in each cart. */
  predicate OneLinePerProduct(lines: Lines) {
    forall i, j :: i in lines && j in lines && lines[i].cart == lines[j].cart && lines[i].product == lines[j].product
      ==> i == j
  }

  predicate Sound(t: Tables) {
    OneLinePerProduct(t.lines) &&
    (forall i :: i in t.lines ==> t.lines[i].cart in t.carts) &&
    (forall c, d :: c in t.carts && d in t.carts && t.carts[c].user.Some? && t.carts[c].user == t.carts[d].user ==> c == d) &&
    (forall c, d :: c in t.carts && d in t.carts && t.carts[c].uuid == t.carts[d].uuid ==> c == d)
  }

  // ----- the merge, per line -----

  predicate IsLine(lines: Lines, i: nat, cart: nat, product: nat) {
    i in lines && lines[i].cart == cart && lines[i].product == product
  }

  predicate HasLine(lines: Lines, cart: nat, product: nat) {
    exists i :: i in lines && IsLine(lines, i, cart, product)
  }

  function SourceLines(lines: Lines, cart: nat): set<nat> {
    set i | i in lines && lines[i].cart == cart
  }

  /** A combined line is capped at the stock, but only when there is stock at all. */
  function Capped(stock: int, quantity: nat): nat {
    if 0 < stock < quantity then stock else quantity
  }

  /** The lines once the source lines in `done` have been merged. */
  ghost function MergedPart(lines: Lines, src: nat, tgt: nat, stock: nat -> int, done: set<nat>): Lines {
    map i | i in lines && !(i in done && HasLine(lines, tgt, lines[i].product)) :: MergedLine(lines, src, tgt, stock, done, i)
  }

  ghost function MergedLine(lines: Lines, src: nat, tgt: nat, stock: nat -> int, done: set<nat>, i: nat): Line
    requires i in lines
  {
    var line := lines[i];
    if i in done then line.(cart := tgt)
    else if line.cart == tgt && exists s :: s in done && IsLine(lines, s, src, line.product) then
      var s :| s in done && IsLine(lines, s, src, line.product);
      line.(quantity := Capped(stock(line.product), line.quantity + lines[s].quantity))
    else line
  }

  /** The lines after the whole merge: no order of processing is mentioned. */
  ghost function MergedLines(lines: Lines, src: nat, tgt: nat, stock: nat -> int): Lines {
    MergedPart(lines, src, tgt, stock, SourceLines(lines, src))
  }

  ghost function MergedTables(t: Tables, src: nat, tgt: nat, stock: nat -> int): Tables {
    Tables(t.carts - {src}, MergedLines(t.lines, src, tgt, stock))
  }

  /** A round of the loop that combines line `i` with the target's line `e`. */
  function Combined(lines: Lines, stock: nat -> int, i: nat, e: nat): Lines
    requires i in lines && e in lines
  {
    var quantity := Capped(stock(lines[i].product), lines[e].quantity + lines[i].quantity);
    lines[e := lines[e].(quantity := quantity)] - {i}
  }

  /** A round of the loop that moves line `i`. */
  function Moved(lines: Lines, tgt: nat, i: nat): Lines
    requires i in lines
  {
    lines[i := lines[i].(cart := tgt)]
  }

  lemma PartKeepsLookups(lines: Lines, src: nat, tgt: nat, stock: nat -> int, done: set<nat>, i: nat)
    requires OneLinePerProduct(lines) && src != tgt && done <= SourceLines(lines, src)
    requires i in SourceLines(lines, src) && i !in done
    ensures
      var part := MergedPart(lines, src, tgt, stock, done);
      i in part && part[i] == lines[i] &&
      forall e :: e in part && IsLine(part, e, tgt, lines[i].product) <==> IsLine(lines, e, tgt, lines[i].product)
    ensures forall e :: IsLine(lines, e, tgt, lines[i].product) ==>
      MergedPart(lines, src, tgt, stock, done)[e] == lines[e]
  {
    var part := MergedPart(lines, src, tgt, stock, done);
    assert forall s :: s in done && IsLine(lines, s, src, lines[i].product) ==> s == i;
  }

  /** The line of the target that the round combines, after it and before it. */
  lemma CombinedLine(lines: Lines, src: nat, tgt: nat, stock: nat -> int, done: set<nat>, i: nat, e: nat)
    requires OneLinePerProduct(lines) && src != tgt && done <= SourceLines(lines, src)
    requires i in SourceLines(lines, src) && i !in done && IsLine(lines, e, tgt, lines[i].product)
    ensures MergedLine(lines, src, tgt, stock, done + {i}, e)
      == lines[e].(quantity := Capped(stock(lines[i].product), lines[e].quantity + lines[i].quantity))
  {
    assert i in done + {i} && IsLine(lines, i, src, lines[e].product);
    assert forall s :: s in done + {i} && IsLine(lines, s, src, lines[e].product) ==> s == i;
  }

  /** Combining extends the merged part by one source line. */
  lemma CombinedExtendsPart(lines: Lines, src: nat, tgt: nat, stock: nat -> int, done: set<nat>, i: nat, e: nat)
    requires OneLinePerProduct(lines) && src != tgt && done <= SourceLines(lines, src)
    requires i in SourceLines(lines, src) && i !in done && IsLine(lines, e, tgt, lines[i].product)
    ensures
      var part := MergedPart(lines, src, tgt, stock, done);
      i in part && e in part && Combined(part, stock, i, e) == MergedPart(lines, src, tgt, stock, done + {i})
  {
    PartKeepsLookups(lines, src, tgt, stock, done, i);
    assert HasLine(lines, tgt, lines[i].product);
    CombinedLine(lines, src, tgt, stock, done, i, e);
    forall j | j in lines && j != i && j != e
      ensures MergedLine(lines, src, tgt, stock, done + {i}, j) == MergedLine(lines, src, tgt, stock, done, j)
    {
      SameLine(lines, src, tgt, stock, done, i, j);
    }
  }

  /** So does moving. */
  lemma MovedExtendsPart(lines: Lines, src: nat, tgt: nat, stock: nat -> int, done: set<nat>, i: nat)
    requires OneLinePerProduct(lines) && src != tgt && done <= SourceLines(lines, src)
    requires i in SourceLines(lines, src) && i !in done && !HasLine(lines, tgt, lines[i].product)
    ensures
      var part := MergedPart(lines, src, tgt, stock, done);
      i in part && Moved(part, tgt, i) == MergedPart(lines, src, tgt, stock, done + {i})
  {
    PartKeepsLookups(lines, src, tgt, stock, done, i);
    forall j | j in lines && j != i
      ensures MergedLine(lines, src, tgt, stock, done + {i}, j) == MergedLine(lines, src, tgt, stock, done, j)
    {
      SameLine(lines, src, tgt, stock, done, i, j);
    }
  }

  lemma SameLine(lines: Lines, src: nat, tgt: nat, stock: nat -> int, done: set<nat>, i: nat, j: nat)
    requires OneLinePerProduct(lines) && src != tgt && done <= SourceLines(lines, src)
    requires i in SourceLines(lines, src) && j in lines && j != i && !IsLine(lines, j, tgt, lines[i].product)
    ensures MergedLine(lines, src, tgt, stock, done + {i}, j) == MergedLine(lines, src, tgt, stock, done, j)
  {
    if lines[j].cart == tgt {
      assert forall s :: s in done + {i} && IsLine(lines, s, src, lines[j].product) ==> s in done;
      assert forall s, r :: IsLine(lines, s, src, lines[j].product) && IsLine(lines, r, src, lines[j].product) ==> s == r;
    }
  }

  // ----- what the merge does to quantities -----

  /** Quantity of a product in a cart, if there is a line for it. */
  ghost function Quantity(lines: Lines, cart: nat, product: nat): Option<nat> {
    if i :| i in lines && IsLine(lines, i, cart, product) then Some(lines[i].quantity) else None
  }

  lemma QuantityAt(lines: Lines, i: nat)
    requires OneLinePerProduct(lines) && i in lines
    ensures Quantity(lines, lines[i].cart, lines[i].product) == Some(lines[i].quantity)
  {
    assert IsLine(lines, i, lines[i].cart, lines[i].product);
  }

  lemma MergedKeepsOneLine(lines: Lines, src: nat, tgt: nat, stock: nat -> int)
    requires OneLinePerProduct(lines) && src != tgt
    ensures OneLinePerProduct(MergedLines(lines, src, tgt, stock))
    ensures forall i :: i in MergedLines(lines, src, tgt, stock) ==> MergedLines(lines, src, tgt, stock)[i].cart != src
  {
    var merged := MergedLines(lines, src, tgt, stock);
    forall i, j | i in merged && j in merged && merged[i].cart == merged[j].cart && merged[i].product == merged[j].product
      ensures i == j
    {
      if lines[i].cart == src && lines[j].cart == tgt {
        assert IsLine(lines, j, tgt, lines[i].product);
      }
      if lines[j].cart == src && lines[i].cart == tgt {
        assert IsLine(lines, i, tgt, lines[j].product);
      }
    }
  }

  /**
   * What a merge comes to for one product: a line that only one cart has stays or moves; of two lines the sum
   * is left, but no more than a positive stock. The source has nothing left, and no other cart changes.
   */
  ghost predicate MergedFor(before: Lines, after: Lines, src: nat, tgt: nat, stock: int, product: nat) {
    var mine, theirs := Quantity(before, tgt, product), Quantity(before, src, product);
    (mine.None? ==> Quantity(after, tgt, product) == theirs) &&
    (theirs.None? ==> Quantity(after, tgt, product) == mine) &&
    (mine.Some? && theirs.Some? ==>
      var sum := mine.value + theirs.value;
      Quantity(after, tgt, product) == Some(if 0 < stock < sum then stock else sum)) &&
    Quantity(after, src, product).None? &&
    forall cart :: cart != src && cart != tgt ==> Quantity(after, cart, product) == Quantity(before, cart, product)
  }

  lemma MergedQuantities(lines: Lines, src: nat, tgt: nat, stock: nat -> int, product: nat)
    requires OneLinePerProduct(lines) && src != tgt
    ensures MergedFor(lines, MergedLines(lines, src, tgt, stock), src, tgt, stock(product), product)
  {
    var merged := MergedLines(lines, src, tgt, stock);
    MergedKeepsOneLine(lines, src, tgt, stock);
    TargetQuantity(lines, src, tgt, stock, product);
    forall cart | cart != src && cart != tgt ensures Quantity(merged, cart, product) == Quantity(lines, cart, product) {
      forall i ensures IsLine(merged, i, cart, product) <==> IsLine(lines, i, cart, product) {}
      forall i | IsLine(lines, i, cart, product) ensures merged[i] == lines[i] {}
    }
  }

  lemma TargetQuantity(lines: Lines, src: nat, tgt: nat, stock: nat -> int, product: nat)
    requires OneLinePerProduct(lines) && src != tgt
    ensures
      var mine, theirs := Quantity(lines, tgt, product), Quantity(lines, src, product);
      Quantity(MergedLines(lines, src, tgt, stock), tgt, product) ==
        if mine.None? then theirs
        else if theirs.None? then mine
        else Some(Capped(stock(product), mine.value + theirs.value))
  {
    var merged := MergedLines(lines, src, tgt, stock);
    MergedKeepsOneLine(lines, src, tgt, stock);
    if e :| e in lines && IsLine(lines, e, tgt, product) {
      QuantityAt(lines, e);
      QuantityAt(merged, e);
      if s :| s in lines && IsLine(lines, s, src, product) {
        QuantityAt(lines, s);
        assert s in SourceLines(lines, src);
        assert forall r :: IsLine(lines, r, src, product) ==> r == s;
      }
    } else if s :| s in lines && IsLine(lines, s, src, product) {
      QuantityAt(lines, s);
      assert !HasLine(lines, tgt, product);
      QuantityAt(merged, s);
    } else {
      forall i ensures !IsLine(merged, i, tgt, product) {
        if i in merged { assert !IsLine(lines, i, tgt, product) && !IsLine(lines, i, src, product); }
      }
    }
  }

  /** What the cap takes away when a source line is combined. */
  ghost function Excess(lines: Lines, tgt: nat, stock: nat -> int): nat -> int {
    (i: nat) =>
      if i !in lines || Quantity(lines, tgt, lines[i].product).None? then 0 else
        var sum := Quantity(lines, tgt, lines[i].product).value + lines[i].quantity;
        sum - Capped(stock(lines[i].product), sum)
  }

  ghost function In(lines: Lines, cart: nat): nat -> int {
    (i: nat) => if i in lines && lines[i].cart == cart then lines[i].quantity else 0
  }

  ghost function InEither(lines: Lines, a: nat, b: nat): nat -> int {
    (i: nat) => if i in lines && (lines[i].cart == a || lines[i].cart == b) then lines[i].quantity else 0
  }

  /** Total quantity in a cart. */
  ghost function Total(lines: Lines, cart: nat): int {
    SumOver(lines.Keys, In(lines, cart))
  }

  /** Total quantity in the two carts together. */
  ghost function TotalOfBoth(lines: Lines, a: nat, b: nat): int {
    SumOver(lines.Keys, InEither(lines, a, b))
  }

  lemma CombineTotal(lines: Lines, src: nat, tgt: nat, i: nat, e: nat, quantity: nat)
    requires i in lines && e in lines && i != e && lines[i].cart == src && lines[e].cart == tgt
    ensures TotalOfBoth(lines[e := lines[e].(quantity := quantity)] - {i}, src, tgt)
      == TotalOfBoth(lines, src, tgt) - lines[i].quantity - lines[e].quantity + quantity
  {
    var after := lines[e := lines[e].(quantity := quantity)] - {i};
    assert after.Keys == lines.Keys - {i};
    SumOverRemove(lines.Keys, i, InEither(lines, src, tgt));
    SumOverRemove(lines.Keys - {i}, e, InEither(lines, src, tgt));
    SumOverRemove(lines.Keys - {i}, e, InEither(after, src, tgt));
    SumOverCongruent(lines.Keys - {i} - {e}, InEither(lines, src, tgt), InEither(after, src, tgt));
  }

  lemma MovedTotal(lines: Lines, src: nat, tgt: nat, stock: nat -> int, i: nat)
    requires i in lines && lines[i].cart == src && !HasLine(lines, tgt, lines[i].product)
    ensures TotalOfBoth(Moved(lines, tgt, i), src, tgt)
      == TotalOfBoth(lines, src, tgt) - Excess(lines, tgt, stock)(i)
  {
    var after := Moved(lines, tgt, i);
    assert after.Keys == lines.Keys;
    SumOverCongruent(lines.Keys, InEither(lines, src, tgt), InEither(after, src, tgt));
    assert Quantity(lines, tgt, lines[i].product).None?;
  }

  lemma CombinedTotal(lines: Lines, src: nat, tgt: nat, stock: nat -> int, i: nat, e: nat)
    requires OneLinePerProduct(lines) && src != tgt
    requires i in lines && lines[i].cart == src && IsLine(lines, e, tgt, lines[i].product)
    ensures TotalOfBoth(Combined(lines, stock, i, e), src, tgt)
      == TotalOfBoth(lines, src, tgt) - Excess(lines, tgt, stock)(i)
  {
    QuantityAt(lines, e);
    CombineTotal(lines, src, tgt, i, e, Capped(stock(lines[i].product), lines[e].quantity + lines[i].quantity));
  }

  lemma PartKeepsOneLine(lines: Lines, src: nat, tgt: nat, stock: nat -> int, done: set<nat>)
    requires OneLinePerProduct(lines) && src != tgt && done <= SourceLines(lines, src)
    ensures OneLinePerProduct(MergedPart(lines, src, tgt, stock, done))
  {
    var part := MergedPart(lines, src, tgt, stock, done);
    forall i, j | i in part && j in part && part[i].cart == part[j].cart && part[i].product == part[j].product
      ensures i == j
    {
      if i in done && j !in done {
        assert IsLine(lines, j, tgt, lines[i].product);
      } else if j in done && i !in done {
        assert IsLine(lines, i, tgt, lines[j].product);
      }
    }
  }

  lemma NothingMerged(lines: Lines, src: nat, tgt: nat, stock: nat -> int)
    ensures MergedPart(lines, src, tgt, stock, {}) == lines
  {
  }

  lemma BothTotals(lines: Lines, src: nat, tgt: nat)
    requires src != tgt
    ensures TotalOfBoth(lines, src, tgt) == Total(lines, src) + Total(lines, tgt)
  {
    SumOverPlus(lines.Keys, In(lines, src), In(lines, tgt), InEither(lines, src, tgt));
  }

  lemma NoneLeftTotal(lines: Lines, src: nat, tgt: nat)
    requires forall i :: i in lines ==> lines[i].cart != src
    ensures TotalOfBoth(lines, src, tgt) == Total(lines, tgt)
  {
    SumOverCongruent(lines.Keys, InEither(lines, src, tgt), In(lines, tgt));
  }

  lemma PartTotalStep(lines: Lines, src: nat, tgt: nat, stock: nat -> int, done: set<nat>, i: nat)
    requires OneLinePerProduct(lines) && src != tgt && done <= SourceLines(lines, src)
    requires i in SourceLines(lines, src) && i !in done
    ensures TotalOfBoth(MergedPart(lines, src, tgt, stock, done + {i}), src, tgt)
      == TotalOfBoth(MergedPart(lines, src, tgt, stock, done), src, tgt) - Excess(lines, tgt, stock)(i)
  {
    var part := MergedPart(lines, src, tgt, stock, done);
    PartKeepsOneLine(lines, src, tgt, stock, done);
    PartKeepsLookups(lines, src, tgt, stock, done, i);
    if e :| e in lines && IsLine(lines, e, tgt, lines[i].product) {
      CombinedExtendsPart(lines, src, tgt, stock, done, i, e);
      CombinedTotal(part, src, tgt, stock, i, e);
    } else {
      assert forall e :: e in part ==> !IsLine(part, e, tgt, lines[i].product);
      MovedExtendsPart(lines, src, tgt, stock, done, i);
      MovedTotal(part, src, tgt, stock, i);
    }
    SameExcess(lines, src, tgt, stock, done, i);
  }

  lemma {:induction false} PartTotal(lines: Lines, src: nat, tgt: nat, stock: nat -> int, done: set<nat>)
    requires OneLinePerProduct(lines) && src != tgt && done <= SourceLines(lines, src)
    ensures TotalOfBoth(MergedPart(lines, src, tgt, stock, done), src, tgt)
      == TotalOfBoth(lines, src, tgt) - SumOver(done, Excess(lines, tgt, stock))
    decreases |done|
  {
    if done == {} {
      NothingMerged(lines, src, tgt, stock);
    } else {
      var i :| i in done;
      var before := done - {i};
      assert before + {i} == done;
      SumOverRemove(done, i, Excess(lines, tgt, stock));
      PartTotalStep(lines, src, tgt, stock, before, i);
      PartTotal(lines, src, tgt, stock, before);
    }
  }

  lemma SameQuantity(lines: Lines, part: Lines, cart: nat, product: nat)
    requires OneLinePerProduct(lines) && OneLinePerProduct(part)
    requires forall e :: IsLine(part, e, cart, product) <==> IsLine(lines, e, cart, product)
    requires forall e :: IsLine(lines, e, cart, product) ==> e in part && part[e] == lines[e]
    ensures Quantity(part, cart, product) == Quantity(lines, cart, product)
  {
    if e :| e in lines && IsLine(lines, e, cart, product) {
      QuantityAt(lines, e);
      QuantityAt(part, e);
    }
  }

  lemma SameExcess(lines: Lines, src: nat, tgt: nat, stock: nat -> int, done: set<nat>, i: nat)
    requires OneLinePerProduct(lines) && src != tgt && done <= SourceLines(lines, src)
    requires i in SourceLines(lines, src) && i !in done
    ensures Excess(MergedPart(lines, src, tgt, stock, done), tgt, stock)(i) == Excess(lines, tgt, stock)(i)
  {
    PartKeepsLookups(lines, src, tgt, stock, done, i);
    PartKeepsOneLine(lines, src, tgt, stock, done);
    SameQuantity(lines, MergedPart(lines, src, tgt, stock, done), tgt, lines[i].product);
  }

  /** Conservation: the merge loses in total exactly what the caps take away. */
  lemma MergeLosesOnlyExcess(lines: Lines, src: nat, tgt: nat, stock: nat -> int)
    requires OneLinePerProduct(lines) && src != tgt
    ensures Total(MergedLines(lines, src, tgt, stock), tgt)
      == Total(lines, src) + Total(lines, tgt) - SumOver(SourceLines(lines, src), Excess(lines, tgt, stock))
  {
    PartTotal(lines, src, tgt, stock, SourceLines(lines, src));
    BothTotals(lines, src, tgt);
    MergedKeepsOneLine(lines, src, tgt, stock);
    NoneLeftTotal(MergedLines(lines, src, tgt, stock), src, tgt);
  }

  /** Logging in can shrink a line the user already had: exactly when the line was above the stock. */
  lemma MergeShrinksIff(lines: Lines, src: nat, tgt: nat, stock: nat -> int, product: nat)
    requires OneLinePerProduct(lines) && src != tgt
    requires Quantity(lines, tgt, product).Some? && Quantity(lines, src, product).Some?
    ensures
      var before := Quantity(lines, tgt, product).value;
      var after := Quantity(MergedLines(lines, src, tgt, stock), tgt, product);
      after.Some? && (after.value < before <==> 0 < stock(product) < before)
  {
    MergedQuantities(lines, src, tgt, stock, product);
  }

  // ----- adding an item -----

  /** The product's line in the cart grows, or a new line is made. Nothing is capped here. */
  ghost function Added(lines: Lines, cart: nat, product: nat, quantity: nat, newId: nat): Lines {
    if e :| e in lines && IsLine(lines, e, cart, product)
    then lines[e := lines[e].(quantity := lines[e].quantity + quantity)]
    else lines[newId := Line(cart, product, quantity)]
  }

  function OrZero(q: Option<nat>): nat {
    if q.Some? then q.value else 0
  }

  lemma AddedIs(lines: Lines, cart: nat, product: nat, quantity: nat, newId: nat)
    requires OneLinePerProduct(lines)
    ensures forall e :: e in lines && IsLine(lines, e, cart, product) ==>
      Added(lines, cart, product, quantity, newId) == lines[e := lines[e].(quantity := lines[e].quantity + quantity)]
  {
  }

  /** Adding raises one product's quantity in one cart, touches no other, and keeps one line per product. */
  lemma AddedQuantities(lines: Lines, cart: nat, product: nat, quantity: nat, newId: nat)
    requires OneLinePerProduct(lines) && newId !in lines
    ensures
      var after := Added(lines, cart, product, quantity, newId);
      OneLinePerProduct(after) &&
      Quantity(after, cart, product) == Some(OrZero(Quantity(lines, cart, product)) + quantity) &&
      forall c, p :: c != cart || p != product ==> Quantity(after, c, p) == Quantity(lines, c, p)
  {
    var after := Added(lines, cart, product, quantity, newId);
    if e :| e in lines && IsLine(lines, e, cart, product) {
      QuantityAt(lines, e);
      QuantityAt(after, e);
    } else {
      QuantityAt(after, newId);
    }
    forall c, p | c != cart || p != product ensures Quantity(after, c, p) == Quantity(lines, c, p) {
      assert forall e :: IsLine(after, e, c, p) <==> IsLine(lines, e, c, p);
      SameQuantity(lines, after, c, p);
    }
  }

  /** No cap can apply: there is no line to combine with, no positive stock, or enough of it. */
  predicate Uncapped(mine: Option<nat>, theirs: Option<nat>, stock: int, quantity: nat) {
    mine.None? || stock <= 0 || mine.value + OrZero(theirs) + quantity <= stock
  }

  /** The user's quantity of a product when an item is added to the guest cart before the login. */
  ghost function AddThenMerge(
    lines: Lines, src: nat, tgt: nat, stock: nat -> int, product: nat, quantity: nat, newId: nat
  ): (q: nat)
    requires OneLinePerProduct(lines) && src != tgt && newId !in lines
    ensures
      var mine, theirs := Quantity(lines, tgt, product), Quantity(lines, src, product);
      q == if mine.None? then OrZero(theirs) + quantity
           else Capped(stock(product), mine.value + OrZero(theirs) + quantity)
  {
    var added := Added(lines, src, product, quantity, newId);
    AddedQuantities(lines, src, product, quantity, newId);
    MergedQuantities(added, src, tgt, stock, product);
    Quantity(MergedLines(added, src, tgt, stock), tgt, product).value
  }

  /** The same when it is added to the user's cart after the login. */
  ghost function MergeThenAdd(
    lines: Lines, src: nat, tgt: nat, stock: nat -> int, product: nat, quantity: nat, newId: nat
  ): (q: nat)
    requires OneLinePerProduct(lines) && src != tgt && newId !in lines
    ensures
      var mine, theirs := Quantity(lines, tgt, product), Quantity(lines, src, product);
      q == quantity + if mine.None? || theirs.None? then OrZero(mine) + OrZero(theirs)
                      else Capped(stock(product), mine.value + theirs.value)
  {
    var merged := MergedLines(lines, src, tgt, stock);
    MergedQuantities(lines, src, tgt, stock, product);
    MergedKeepsOneLine(lines, src, tgt, stock);
    AddedQuantities(merged, tgt, product, quantity, newId);
    Quantity(Added(merged, tgt, product, quantity, newId), tgt, product).value
  }

  /**
   * Adding an item before or after the login comes to the same quantity exactly when no cap can apply: the
   * merge caps, adding does not.
   */
  lemma AddBeforeOrAfterMergeIff(
    lines: Lines, src: nat, tgt: nat, stock: nat -> int, product: nat, quantity: nat, newId: nat
  )
    requires OneLinePerProduct(lines) && src != tgt && newId !in lines && quantity > 0
    ensures
      (AddThenMerge(lines, src, tgt, stock, product, quantity, newId)
        == MergeThenAdd(lines, src, tgt, stock, product, quantity, newId))
      <==> Uncapped(Quantity(lines, tgt, product), Quantity(lines, src, product), stock(product), quantity)
  {
    CapBites(
      Quantity(lines, tgt, product), Quantity(lines, src, product), stock(product), quantity,
      AddThenMerge(lines, src, tgt, stock, product, quantity, newId),
      MergeThenAdd(lines, src, tgt, stock, product, quantity, newId));
  }

  lemma CapBites(mine: Option<nat>, theirs: Option<nat>, stock: int, quantity: nat, first: nat, second: nat)
    requires quantity > 0
    requires first
      == if mine.None? then OrZero(theirs) + quantity else Capped(stock, mine.value + OrZero(theirs) + quantity)
    requires second
      == quantity + if mine.None? || theirs.None? then OrZero(mine) + OrZero(theirs)
                    else Capped(stock, mine.value + theirs.value)
    ensures first == second <==> Uncapped(mine, theirs, stock, quantity)
  {
  }

  // ----- two concrete logins with three pieces in stock -----

  const USER_CART := 1
  const GUEST_CART := 2
  const LAMP := 9

  function Stock(pieces: int): nat -> int {
    (product: nat) => pieces
  }

  /** Five pieces from when there were more, and one in the guest cart: the login leaves three. */
  lemma LoginShrinksLine()
    ensures
      var lines := map[10 := Line(USER_CART, LAMP, 5), 11 := Line(GUEST_CART, LAMP, 1)];
      Quantity(lines, USER_CART, LAMP) == Some(5) &&
      Quantity(MergedLines(lines, GUEST_CART, USER_CART, Stock(3)), USER_CART, LAMP) == Some(3)
  {
    var lines := map[10 := Line(USER_CART, LAMP, 5), 11 := Line(GUEST_CART, LAMP, 1)];
    QuantityAt(lines, 10);
    QuantityAt(lines, 11);
    MergedQuantities(lines, GUEST_CART, USER_CART, Stock(3), LAMP);
  }

  /** Two pieces in the cart and two more wanted: three when they are added before the login, four after it. */
  lemma AddingAfterLoginExceedsStock()
    ensures
      var lines := map[10 := Line(USER_CART, LAMP, 2)];
      AddThenMerge(lines, GUEST_CART, USER_CART, Stock(3), LAMP, 2, 11) == 3 &&
      MergeThenAdd(lines, GUEST_CART, USER_CART, Stock(3), LAMP, 2, 11) == 4
  {
    var lines := map[10 := Line(USER_CART, LAMP, 2)];
    QuantityAt(lines, 10);
    assert Quantity(lines, GUEST_CART, LAMP).None?;
  }
}
