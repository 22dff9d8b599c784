/** What one reversal call does, whatever the order in which the earned rows are returned. */
module LoyaltyReversal {
  import opened Wrappers
  import opened Folds
  import opened LoyaltyData
  import opened LoyaltySteps

  function Id(): int -> int { (p: int) => p }

  /** The loop removes the earned total, or everything that is left when that is less. */
  lemma {:induction false} ReversalRowsTotal(u: nat, o: nat, points: seq<int>, balance: int, now: int)
    requires balance >= 0 && forall p :: p in points ==> p >= 0
    ensures -Sum(ReversalRows(u, o, points, balance, now), PointsOf(u)) == Min(Sum(points, Id()), balance)
    ensures Sum(points, Id()) >= 0
  {
    if points != [] {
      var k := |points| - 1;
      assert points[k] in points && forall p :: p in points[..k] ==> p in points;
      ReversalRowsTotal(u, o, points[..k], balance, now);
      ReverseOneSum(u, o, ReversalRows(u, o, points[..k], balance, now), points[k], balance, now);
    }
  }

  lemma {:induction false} PointsListSum(ledger: seq<Tx>, ids: seq<nat>)
    requires Known(ledger, ids)
    ensures Sum(PointsList(ledger, ids), Id()) == Sum<nat>(ids, PointsAt(ledger))
  {
    if ids != [] {
      var k := |ids| - 1;
      PointsListSum(ledger, ids[..k]);
      assert PointsList(ledger, ids)[..k] == PointsList(ledger, ids[..k]);
    }
  }

  function OrderNet(o: nat): Tx -> int {
    (t: Tx) =>
      if t.order == Some(o) && (t.kind == Earn || t.kind == Redeem || t.kind == Adjust) then t.points else 0
  }

  /** The rows of the ledger are as the writers leave them: earned points are never negative. */
  predicate EarnsNonNegative(ledger: seq<Tx>) {
    forall i :: 0 <= i < |ledger| && ledger[i].kind == Earn ==> ledger[i].points >= 0
  }

  ghost predicate CallReverses(s: Store, orders: map<nat, OrderRow>, o: nat, cfg: Settings) {
    cfg.enabled && o in orders && orders[o].user.Some? && Reversible(s.ledger, o)
  }

  /**
   * A reversal first credits what was spent on the order, then removes exactly the smaller of the
   * earned total and the balance so restored. The result is the same for every listing order.
   */
  lemma ReversalRemoves(
    s: Store, orders: map<nat, OrderRow>, o: nat, cfg: Settings, tiers: seq<Tier>, listing: seq<nat>, now: int
  )
    requires OwnersExist(s, orders) && CallReverses(s, orders, o, cfg)
    requires multiset(listing) == multiset(EarnIds(s.ledger, o))
    requires EarnsNonNegative(s.ledger) && Balance(s.ledger, orders[o].user.value) >= 0
    ensures Known(s.ledger, listing)
    ensures
      var u := orders[o].user.value;
      var (after, removed) := Reverse(s, orders, o, cfg, tiers, listing, now);
      var balance := Balance(s.ledger, u) + Max(0, Spent(s.ledger, o));
      removed == Min(Sum(s.ledger, OrderPointsOf(o, Earn)), balance) &&
      Balance(after.ledger, u) == balance - removed && removed >= 0
  {
    ListedEarns(s.ledger, o, listing);
    UndoRemoves(s, orders[o].user.value, o, PointsList(s.ledger, listing), now);
    ReverseUndoes(s, orders, o, cfg, tiers, listing, now);
  }

  /** The tier recalculation at the end of a reversal leaves the ledger, the total and the XP alone. */
  lemma ReverseUndoes(
    s: Store, orders: map<nat, OrderRow>, o: nat, cfg: Settings, tiers: seq<Tier>, listing: seq<nat>, now: int
  )
    requires OwnersExist(s, orders) && CallReverses(s, orders, o, cfg) && Known(s.ledger, listing)
    ensures
      var u := orders[o].user.value;
      var (after, removed) := Reverse(s, orders, o, cfg, tiers, listing, now);
      var (undone, total) := Undo(s, u, o, PointsList(s.ledger, listing), now);
      after.ledger == undone.ledger && removed == total && after.users[u].xp == undone.users[u].xp
  {
  }

  lemma UndoRemoves(s: Store, u: nat, o: nat, earned: seq<int>, now: int)
    requires u in s.users && Balance(s.ledger, u) >= 0 && forall p :: p in earned ==> p >= 0
    ensures
      var (undone, removed) := Undo(s, u, o, earned, now);
      var balance := Balance(s.ledger, u) + Max(0, Spent(s.ledger, o));
      removed == Min(Sum(earned, Id()), balance) && removed >= 0 && Balance(undone.ledger, u) == balance - removed
  {
    var credited := Restored(s.ledger, u, o, now);
    RestoredBalance(s.ledger, u, o, now);
    ReversalRowsTotal(u, o, earned, Balance(credited, u), now);
    SumConcat(credited, ReversalRows(u, o, earned, Balance(credited, u), now), PointsOf(u));
  }

  lemma ListedEarns(ledger: seq<Tx>, o: nat, listing: seq<nat>)
    requires multiset(listing) == multiset(EarnIds(ledger, o)) && EarnsNonNegative(ledger)
    ensures Known(ledger, listing)
    ensures forall p :: p in PointsList(ledger, listing) ==> p >= 0
    ensures Sum(PointsList(ledger, listing), Id()) == Sum(ledger, OrderPointsOf(o, Earn))
  {
    ListingSum(ledger, o, listing);
    PointsListSum(ledger, listing);
    var earned := PointsList(ledger, listing);
    forall p | p in earned ensures p >= 0 {
      var k :| 0 <= k < |earned| && earned[k] == p;
      assert listing[k] in listing;
    }
  }

  lemma RestoredBalance(ledger: seq<Tx>, u: nat, o: nat, now: int)
    ensures Balance(Restored(ledger, u, o, now), u) == Balance(ledger, u) + Max(0, Spent(ledger, o))
  {
    SumAppend(ledger, Tx(u, Spent(ledger, o), Adjust, Some(o), None, now), PointsOf(u));
  }

  /** When the balance covers the earned total, the order's own rows cancel out after its reversal. */
  lemma UnclampedReversalCancels(
    s: Store, orders: map<nat, OrderRow>, o: nat, cfg: Settings, tiers: seq<Tier>, listing: seq<nat>, now: int
  )
    requires OwnersExist(s, orders) && CallReverses(s, orders, o, cfg)
    requires multiset(listing) == multiset(EarnIds(s.ledger, o))
    requires EarnsNonNegative(s.ledger)
    requires Balance(s.ledger, orders[o].user.value) >= 0 && Spent(s.ledger, o) >= 0
    ensures Known(s.ledger, listing)
    ensures
      var u := orders[o].user.value;
      var net := Sum(Reverse(s, orders, o, cfg, tiers, listing, now).0.ledger, OrderNet(o));
      net >= 0 &&
      (net == 0 <==> Sum(s.ledger, OrderPointsOf(o, Earn)) <= Balance(s.ledger, u) + Spent(s.ledger, o))
  {
    var u := orders[o].user.value;
    ReversalRemoves(s, orders, o, cfg, tiers, listing, now);
    var (after, removed) := Reverse(s, orders, o, cfg, tiers, listing, now);
    var credited := Restored(s.ledger, u, o, now);
    var earned := PointsList(s.ledger, listing);
    var rows := ReversalRows(u, o, earned, Balance(credited, u), now);
    ReversalRowShape(u, o, earned, Balance(credited, u), now);
    SumCongruent(rows, OrderNet(o), PointsOf(u));
    SumConcat(credited, rows, OrderNet(o));
    var restore := Tx(u, Spent(s.ledger, o), Adjust, Some(o), None, now);
    SumConcat(s.ledger, [restore], OrderNet(o));
    assert Sum([restore], OrderNet(o)) == Spent(s.ledger, o);
    NetWithoutAdjust(s.ledger, o);
  }

  /** A successful redemption takes exactly the points, at the configured ratio; a refused one changes nothing. */
  lemma RedeemTakes(
    s: Store, u: nat, amount: int, currency: string, maxDiscount: real, on: Option<nat>, cfg: Settings, now: int
  )
    ensures
      var (after, r) := RedeemStep(s, u, amount, currency, maxDiscount, on, cfg, now);
      if r.Err? then after == s
      else
        0 < amount <= Balance(s.ledger, u) && r.value <= maxDiscount &&
        r.value * Ratio(cfg, currency) == amount as real &&
        (forall v: nat :: Balance(after.ledger, v) == Balance(s.ledger, v) - if v == u then amount else 0)
  {
    var (after, r) := RedeemStep(s, u, amount, currency, maxDiscount, on, cfg, now);
    if r.Ok? {
      forall v: nat ensures Balance(after.ledger, v) == Balance(s.ledger, v) - if v == u then amount else 0 {
        SumAppend(s.ledger, Tx(u, -amount, Redeem, on, None, now), PointsOf(v));
      }
    }
  }

  lemma {:induction false} NothingSpent(ledger: seq<Tx>, o: nat)
    requires !HasRow(ledger, o, Redeem)
    ensures Spent(ledger, o) == 0
  {
    forall t | t in ledger ensures OrderPointsOf(o, Redeem)(t) == 0 {
      var i :| 0 <= i < |ledger| && ledger[i] == t;
      assert !Refers(ledger[i], o, Redeem);
    }
    SumZero(ledger, OrderPointsOf(o, Redeem));
  }

  lemma AfterRedeem(ledger: seq<Tx>, row: Tx, o: nat)
    requires row.kind == Redeem && row.order == Some(o) && !HasRow(ledger, o, Redeem) && !HasRow(ledger, o, Adjust)
    ensures Spent(ledger + [row], o) == -row.points
    ensures Sum(ledger + [row], OrderPointsOf(o, Earn)) == Sum(ledger, OrderPointsOf(o, Earn))
    ensures HasRow(ledger + [row], o, Redeem) && !HasRow(ledger + [row], o, Adjust)
  {
    NothingSpent(ledger, o);
    SumAppend(ledger, row, OrderPointsOf(o, Redeem));
    SumAppend(ledger, row, OrderPointsOf(o, Earn));
    assert Refers((ledger + [row])[|ledger|], o, Redeem);
    assert forall i :: 0 <= i < |ledger| ==> (ledger + [row])[i] == ledger[i];
  }

  /**
   * Cancelling an order undoes its redemption: the user ends with what they had before redeeming, less what
   * the reversal would have taken without it.
   */
  lemma RedeemThenReverse(
    s: Store, orders: map<nat, OrderRow>, o: nat, u: nat, amount: int, currency: string, maxDiscount: real,
    cfg: Settings, tiers: seq<Tier>, listing: seq<nat>, now: int, later: int
  )
    requires OwnersExist(s, orders) && o in orders && orders[o].user == Some(u)
    requires RedeemStep(s, u, amount, currency, maxDiscount, Some(o), cfg, now).1.Ok?
    requires !HasRow(s.ledger, o, Adjust) && EarnsNonNegative(s.ledger)
    requires multiset(listing)
      == multiset(EarnIds(RedeemStep(s, u, amount, currency, maxDiscount, Some(o), cfg, now).0.ledger, o))
    ensures
      var paid := RedeemStep(s, u, amount, currency, maxDiscount, Some(o), cfg, now).0;
      OwnersExist(paid, orders) && Known(paid.ledger, listing) &&
      Balance(Reverse(paid, orders, o, cfg, tiers, listing, later).0.ledger, u)
        == Balance(s.ledger, u) - Min(Sum(s.ledger, OrderPointsOf(o, Earn)), Balance(s.ledger, u))
  {
    var paid := RedeemStep(s, u, amount, currency, maxDiscount, Some(o), cfg, now).0;
    RedeemTakes(s, u, amount, currency, maxDiscount, Some(o), cfg, now);
    AfterRedeem(s.ledger, Tx(u, -amount, Redeem, Some(o), None, now), o);
    assert Balance(paid.ledger, u) == Balance(s.ledger, u) - amount;
    ReversalRemoves(paid, orders, o, cfg, tiers, listing, later);
  }

  lemma {:induction false} NetWithoutAdjust(ledger: seq<Tx>, o: nat)
    requires !HasRow(ledger, o, Adjust)
    ensures Sum(ledger, OrderNet(o)) == Sum(ledger, OrderPointsOf(o, Earn)) - Spent(ledger, o)
  {
    if ledger != [] {
      var k := |ledger| - 1;
      assert !Refers(ledger[k], o, Adjust);
      assert forall i :: 0 <= i < k ==> ledger[..k][i] == ledger[i];
      NetWithoutAdjust(ledger[..k], o);
    }
  }

  /** The ledger or some XP is different. */
  predicate BooksDiffer(s: Store, s': Store)
    requires s'.users.Keys == s.users.Keys
  {
    s'.ledger != s.ledger || exists u :: u in s.users && s'.users[u].xp != s.users[u].xp
  }

  /** Whatever a call changes, it leaves an ADJUST row behind, and that row stops every later call. */
  lemma ReversalHappensOnce(
    s: Store, orders: map<nat, OrderRow>, o: nat, cfg: Settings, tiers: seq<Tier>, listing: seq<nat>, now: int
  )
    requires OwnersExist(s, orders) && Known(s.ledger, listing)
    requires o in orders && orders[o].user.Some? ==> s.users[orders[o].user.value].xp >= 0
    ensures
      var (after, removed) := Reverse(s, orders, o, cfg, tiers, listing, now);
      after.users.Keys == s.users.Keys && s.ledger <= after.ledger &&
      (BooksDiffer(s, after) ==> HasRow(after.ledger, o, Adjust)) && (removed != 0 ==> BooksDiffer(s, after))
  {
    var (after, removed) := Reverse(s, orders, o, cfg, tiers, listing, now);
    if CallReverses(s, orders, o, cfg) {
      var u := orders[o].user.value;
      var credited := Restored(s.ledger, u, o, now);
      var rows := ReversalRows(u, o, PointsList(s.ledger, listing), Balance(credited, u), now);
      ReversalRowShape(u, o, PointsList(s.ledger, listing), Balance(credited, u), now);
      if after.ledger != s.ledger {
        assert Refers(after.ledger[|s.ledger|], o, Adjust);
      } else {
        assert rows == [];
      }
    }
  }

  /** Once an order has an ADJUST row, no continuation of the ledger lets it be reversed again. */
  lemma ReversedStaysReversed(
    s: Store, later: Store, orders: map<nat, OrderRow>, o: nat, cfg: Settings, tiers: seq<Tier>,
    listing: seq<nat>, now: int
  )
    requires HasRow(s.ledger, o, Adjust) && s.ledger <= later.ledger
    requires OwnersExist(later, orders) && Known(later.ledger, listing)
    ensures Reverse(later, orders, o, cfg, tiers, listing, now) == (later, 0)
  {
    var i :| 0 <= i < |s.ledger| && Refers(s.ledger[i], o, Adjust);
    assert Refers(later.ledger[i], o, Adjust);
  }
}
