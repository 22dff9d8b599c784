/** What every step keeps true of the ledger, the XP counter and the redemption receipts. */
module LoyaltyLedger {
  import opened Wrappers
  import opened Folds
  import opened LoyaltyData
  import opened LoyaltySteps
  import opened LoyaltyReversal
  import opened LoyaltyExpiry
  import opened LoyaltyRuns

  // ----- XP as a function of the ledger -----

  /** Earned points count, and so do reversals; credits, redemptions, expiries and bonuses do not. */
  function XpPart(t: Tx): int {
    if t.kind == Earn || (t.kind == Adjust && t.points < 0) then t.points else 0
  }

  function XpOf(u: nat): Tx -> int {
    (t: Tx) => if t.user == u then XpPart(t) else 0
  }

  function XpOfOrder(o: nat): Tx -> int {
    (t: Tx) => if t.order == Some(o) then XpPart(t) else 0
  }

  function XpOfIn(u: nat, orders: set<nat>): Tx -> int {
    (t: Tx) => if t.user == u && t.order.Some? && t.order.value in orders then XpPart(t) else 0
  }

  // ----- the invariant -----

  predicate Owned(orders: map<nat, OrderRow>, t: Tx) {
    t.order.Some? && t.order.value in orders && orders[t.order.value].user == Some(t.user)
  }

  predicate RowSound(orders: map<nat, OrderRow>, t: Tx) {
    match t.kind
    case Earn => Owned(orders, t) && t.points >= 0
    case Adjust => Owned(orders, t)
    case Redeem => t.points < 0 && (t.order.Some? ==> Owned(orders, t))
    case Bonus => t.points >= 0
    case Expire => true
  }

  predicate RowsSound(orders: map<nat, OrderRow>, rows: seq<Tx>) {
    forall i :: 0 <= i < |rows| ==> RowSound(orders, rows[i])
  }

  /** One redemption per order at most, and the receipt on the order is that redemption. */
  ghost predicate RedeemedOnce(ledger: seq<Tx>, receipts: map<nat, Receipt>) {
    (forall i, j, o :: 0 <= i < j < |ledger| && Refers(ledger[i], o, Redeem) ==> !Refers(ledger[j], o, Redeem)) &&
    (forall i, o :: 0 <= i < |ledger| && Refers(ledger[i], o, Redeem) ==>
      o in receipts && receipts[o].points == -ledger[i].points) &&
    (forall o :: o in receipts ==> HasRow(ledger, o, Redeem))
  }

  ghost predicate LedgerInv(orders: map<nat, OrderRow>, s: Store) {
    OwnersExist(s, orders) &&
    RowsSound(orders, s.ledger) &&
    (forall u: nat :: Balance(s.ledger, u) >= 0) &&
    (forall u :: u in s.users ==> s.users[u].xp == Sum(s.ledger, XpOf(u))) &&
    (forall o: nat :: Sum(s.ledger, XpOfOrder(o)) >= 0) &&
    RedeemedOnce(s.ledger, s.receipts)
  }

  // ----- XP never goes below what one order contributed -----

  lemma {:induction false} XpSplit(rows: seq<Tx>, u: nat, orders: set<nat>, o: nat)
    requires o !in orders
    ensures Sum(rows, XpOfIn(u, orders + {o})) == Sum(rows, XpOfIn(u, orders)) + Sum(rows, XpOfIn(u, {o}))
  {
    if rows != [] {
      XpSplit(rows[..|rows| - 1], u, orders, o);
    }
  }

  lemma XpOneOrder(orders: map<nat, OrderRow>, rows: seq<Tx>, u: nat, o: nat)
    requires RowsSound(orders, rows) && o in orders
    ensures Sum(rows, XpOfIn(u, {o})) == if orders[o].user == Some(u) then Sum(rows, XpOfOrder(o)) else 0
  {
    forall t | t in rows
      ensures XpOfIn(u, {o})(t) == if orders[o].user == Some(u) then XpOfOrder(o)(t) else 0
    {
      var i :| 0 <= i < |rows| && rows[i] == t;
      assert RowSound(orders, t);
    }
    if orders[o].user == Some(u) {
      SumCongruent(rows, XpOfIn(u, {o}), XpOfOrder(o));
    } else {
      SumZero(rows, XpOfIn(u, {o}));
    }
  }

  lemma {:induction false} XpNonNegative(orders: map<nat, OrderRow>, rows: seq<Tx>, u: nat, some: set<nat>)
    requires RowsSound(orders, rows) && some <= orders.Keys
    requires forall o: nat :: Sum(rows, XpOfOrder(o)) >= 0
    ensures Sum(rows, XpOfIn(u, some)) >= 0
    decreases |some|
  {
    if some == {} {
      SumZero(rows, XpOfIn(u, {}));
    } else {
      var o :| o in some;
      XpNonNegative(orders, rows, u, some - {o});
      assert some - {o} + {o} == some;
      XpSplit(rows, u, some - {o}, o);
      XpOneOrder(orders, rows, u, o);
    }
  }

  /** A user's XP is at least what any single order of theirs contributes to it. */
  lemma XpCoversOrder(orders: map<nat, OrderRow>, rows: seq<Tx>, u: nat, o: nat)
    requires RowsSound(orders, rows) && o in orders && orders[o].user == Some(u)
    requires forall q: nat :: Sum(rows, XpOfOrder(q)) >= 0
    ensures 0 <= Sum(rows, XpOfOrder(o)) <= Sum(rows, XpOf(u))
  {
    var rest := orders.Keys - {o};
    assert rest + {o} == orders.Keys;
    XpNonNegative(orders, rows, u, rest);
    XpSplit(rows, u, rest, o);
    XpOneOrder(orders, rows, u, o);
    forall t | t in rows ensures XpOf(u)(t) == XpOfIn(u, orders.Keys)(t) {
      var i :| 0 <= i < |rows| && rows[i] == t;
      assert RowSound(orders, t);
    }
    SumCongruent(rows, XpOf(u), XpOfIn(u, orders.Keys));
  }

  // ----- what appended rows do -----

  /** Rows of one user, appended: enough to re-establish the invariant, given their own sums. */
  lemma AppendKeepsLedgerInv(orders: map<nat, OrderRow>, s: Store, s': Store, u: nat, rows: seq<Tx>)
    requires LedgerInv(orders, s) && s'.ledger == s.ledger + rows && s'.receipts == s.receipts
    requires s'.users.Keys == s.users.Keys && forall v :: v in s.users && v != u ==> s'.users[v].xp == s.users[v].xp
    requires u in s.users ==> s'.users[u].xp == s.users[u].xp + Sum(rows, XpOf(u))
    requires RowsSound(orders, rows) && forall t :: t in rows ==> t.user == u && t.kind != Redeem
    requires Balance(s.ledger, u) + Sum(rows, PointsOf(u)) >= 0
    requires forall o: nat :: Sum(s.ledger, XpOfOrder(o)) + Sum(rows, XpOfOrder(o)) >= 0
    ensures LedgerInv(orders, s')
  {
    forall v: nat
      ensures Balance(s'.ledger, v) >= 0
      ensures v in s'.users ==> s'.users[v].xp == Sum(s'.ledger, XpOf(v))
    {
      SumConcat(s.ledger, rows, PointsOf(v));
      SumConcat(s.ledger, rows, XpOf(v));
      assert Balance(s.ledger, v) >= 0;
      if v != u {
        SumZero(rows, PointsOf(v));
        SumZero(rows, XpOf(v));
      }
    }
    forall o: nat ensures Sum(s'.ledger, XpOfOrder(o)) >= 0 {
      SumConcat(s.ledger, rows, XpOfOrder(o));
    }
    AppendKeepsRedeemedOnce(s.ledger, rows, s.receipts);
  }

  lemma AppendKeepsRedeemedOnce(ledger: seq<Tx>, rows: seq<Tx>, receipts: map<nat, Receipt>)
    requires RedeemedOnce(ledger, receipts) && forall t :: t in rows ==> t.kind != Redeem
    ensures RedeemedOnce(ledger + rows, receipts)
  {
    var l' := ledger + rows;
    forall i | |ledger| <= i < |l'| ensures l'[i].kind != Redeem {
      assert l'[i] in rows;
    }
    forall o | o in receipts ensures HasRow(l', o, Redeem) {
      var i :| 0 <= i < |ledger| && Refers(ledger[i], o, Redeem);
      assert Refers(l'[i], o, Redeem);
    }
  }

  // ----- the five writers -----

  predicate NonNegativeItems(items: seq<Line>, cfg: Settings, multiplier: real) {
    forall i :: 0 <= i < |items| ==> ItemPoints(cfg, items[i], multiplier) >= 0
  }

  lemma RecalculateKeepsLedgerInv(
    orders: map<nat, OrderRow>, s: Store, u: nat, seen: Option<Tier>, cfg: Settings, tiers: seq<Tier>
  )
    requires LedgerInv(orders, s) && u in s.users
    ensures LedgerInv(orders, Recalculate(s, u, seen, cfg, tiers))
  {
  }

  lemma AwardRowsSums(
    orders: map<nat, OrderRow>, u: nat, o: nat, cfg: Settings, multiplier: real, now: int
  )
    requires o in orders && orders[o].user == Some(u) && NonNegativeItems(orders[o].items, cfg, multiplier)
    ensures
      var rows := AwardRows(u, o, orders[o].items, cfg, multiplier, now);
      RowsSound(orders, rows) && Sum(rows, XpOf(u)) == Sum(rows, PointsOf(u)) >= 0 &&
      forall q: nat :: Sum(rows, XpOfOrder(q)) >= 0
  {
    var rows := AwardRows(u, o, orders[o].items, cfg, multiplier, now);
    forall t | t in rows ensures t.points >= 0 && t.kind == Earn && t.user == u {
      var i :| 0 <= i < |rows| && rows[i] == t;
    }
    assert forall i :: 0 <= i < |rows| ==> rows[i] in rows;
    SumCongruent(rows, XpOf(u), PointsOf(u));
    SumNonNegative(rows, PointsOf(u));
    forall q: nat ensures Sum(rows, XpOfOrder(q)) >= 0 {
      SumNonNegative(rows, XpOfOrder(q));
    }
  }

  lemma GrantKeepsLedgerInv(orders: map<nat, OrderRow>, s: Store, u: nat, rows: seq<Tx>)
    requires LedgerInv(orders, s) && u in s.users && RowsSound(orders, rows)
    requires Sum(rows, XpOf(u)) == Sum(rows, PointsOf(u)) >= 0
    requires forall q: nat :: Sum(rows, XpOfOrder(q)) >= 0
    requires forall t :: t in rows ==> t.user == u && t.kind == Earn
    ensures LedgerInv(orders, Grant(s, u, rows))
  {
    assert Balance(s.ledger, u) >= 0;
    AppendKeepsLedgerInv(orders, s, Grant(s, u, rows), u, rows);
  }

  lemma AwardKeepsLedgerInv(
    orders: map<nat, OrderRow>, s: Store, o: nat, cfg: Settings, tiers: seq<Tier>, seen: Option<Tier>, now: int
  )
    requires LedgerInv(orders, s)
    requires o in orders ==> NonNegativeItems(orders[o].items, cfg, Multiplier(seen))
    ensures LedgerInv(orders, Award(s, orders, o, cfg, tiers, seen, now).0)
  {
    if cfg.enabled && o in orders && orders[o].user.Some? && !HasRow(s.ledger, o, Earn) {
      var u := orders[o].user.value;
      var rows := AwardRows(u, o, orders[o].items, cfg, Multiplier(seen), now);
      AwardRowsSums(orders, u, o, cfg, Multiplier(seen), now);
      GrantKeepsLedgerInv(orders, s, u, rows);
      RecalculateKeepsLedgerInv(orders, Grant(s, u, rows), u, seen, cfg, tiers);
    }
  }

  lemma {:induction false} OrderXpWithoutAdjust(ledger: seq<Tx>, o: nat)
    requires !HasRow(ledger, o, Adjust)
    ensures Sum(ledger, XpOfOrder(o)) == Sum(ledger, OrderPointsOf(o, Earn))
  {
    if ledger != [] {
      var k := |ledger| - 1;
      assert !Refers(ledger[k], o, Adjust);
      assert forall i :: 0 <= i < k ==> ledger[..k][i] == ledger[i];
      OrderXpWithoutAdjust(ledger[..k], o);
    }
  }

  lemma SpentNonNegative(orders: map<nat, OrderRow>, ledger: seq<Tx>, o: nat)
    requires RowsSound(orders, ledger)
    ensures Spent(ledger, o) >= 0
  {
    forall t | t in ledger ensures OrderPointsOf(o, Redeem)(t) <= 0 {
      var i :| 0 <= i < |ledger| && ledger[i] == t;
      assert RowSound(orders, t);
    }
    SumAtLeast(ledger, OrderPointsOf(o, Redeem), (t: Tx) => 0);
    SumZero(ledger, (t: Tx) => 0);
  }

  lemma UndoXpClampIdle(orders: map<nat, OrderRow>, s: Store, o: nat, listing: seq<nat>, now: int)
    requires LedgerInv(orders, s) && o in orders && orders[o].user.Some? && Reversible(s.ledger, o)
    requires Known(s.ledger, listing) && multiset(listing) == multiset(EarnIds(s.ledger, o))
    ensures
      var u := orders[o].user.value;
      var (undone, removed) := Undo(s, u, o, PointsList(s.ledger, listing), now);
      removed <= Sum(s.ledger, XpOfOrder(o)) && removed <= s.users[u].xp &&
      undone.users[u].xp == s.users[u].xp - removed &&
      0 <= removed <= Balance(Restored(s.ledger, u, o, now), u)
  {
    var u := orders[o].user.value;
    forall i | 0 <= i < |s.ledger| && s.ledger[i].kind == Earn ensures s.ledger[i].points >= 0 {
      assert RowSound(orders, s.ledger[i]);
    }
    assert Balance(s.ledger, u) >= 0;
    ListedEarns(s.ledger, o, listing);
    RestoredBalance(s.ledger, u, o, now);
    UndoRemoves(s, u, o, PointsList(s.ledger, listing), now);
    OrderXpWithoutAdjust(s.ledger, o);
    XpCoversOrder(orders, s.ledger, u, o);
  }

  /** A reversal never takes more XP than the user has: the clamp at zero changes nothing. */
  lemma ReversalXpClampIdle(
    orders: map<nat, OrderRow>, s: Store, o: nat, cfg: Settings, tiers: seq<Tier>, listing: seq<nat>, now: int
  )
    requires LedgerInv(orders, s) && CallReverses(s, orders, o, cfg)
    requires Known(s.ledger, listing) && multiset(listing) == multiset(EarnIds(s.ledger, o))
    ensures
      var u := orders[o].user.value;
      var (after, removed) := Reverse(s, orders, o, cfg, tiers, listing, now);
      removed <= Sum(s.ledger, XpOfOrder(o)) && removed <= s.users[u].xp && after.users[u].xp == s.users[u].xp - removed
  {
    UndoXpClampIdle(orders, s, o, listing, now);
    ReverseUndoes(s, orders, o, cfg, tiers, listing, now);
  }

  /** The credit of the points spent on the order. */
  lemma CreditKeepsLedgerInv(orders: map<nat, OrderRow>, s: Store, o: nat, now: int)
    requires LedgerInv(orders, s) && o in orders && orders[o].user.Some?
    ensures LedgerInv(orders, s.(ledger := Restored(s.ledger, orders[o].user.value, o, now)))
    ensures forall q: nat ::
      Sum(Restored(s.ledger, orders[o].user.value, o, now), XpOfOrder(q)) == Sum(s.ledger, XpOfOrder(q))
  {
    var u := orders[o].user.value;
    SpentNonNegative(orders, s.ledger, o);
    var spent := Spent(s.ledger, o);
    var credit := if spent > 0 then [Tx(u, spent, Adjust, Some(o), None, now)] else [];
    assert Restored(s.ledger, u, o, now) == s.ledger + credit;
    CreditSums(u, o, spent, now);
    assert Balance(s.ledger, u) >= 0;
    AppendKeepsLedgerInv(orders, s, s.(ledger := s.ledger + credit), u, credit);
    forall q: nat ensures Sum(s.ledger + credit, XpOfOrder(q)) == Sum(s.ledger, XpOfOrder(q)) {
      SumConcat(s.ledger, credit, XpOfOrder(q));
    }
  }

  /** The removals, each an ADJUST of the order, with the XP they cost. */
  lemma RemovalKeepsLedgerInv(orders: map<nat, OrderRow>, s: Store, s': Store, o: nat, rows: seq<Tx>)
    requires LedgerInv(orders, s) && o in orders && orders[o].user.Some?
    requires forall t :: t in rows ==> t.user == orders[o].user.value && t.points < 0 && Refers(t, o, Adjust)
    requires
      var u := orders[o].user.value;
      var removed := -Sum(rows, PointsOf(u));
      removed <= Balance(s.ledger, u) && removed <= Sum(s.ledger, XpOfOrder(o)) &&
      s' == s.(ledger := s.ledger + rows, users := s.users[u := s.users[u].(xp := s.users[u].xp - removed)])
    ensures LedgerInv(orders, s')
  {
    var u := orders[o].user.value;
    RemovalSums(u, o, rows);
    forall i | 0 <= i < |rows| ensures RowSound(orders, rows[i]) {
      assert rows[i] in rows;
    }
    AppendKeepsLedgerInv(orders, s, s', u, rows);
  }

  lemma RemovalSums(u: nat, o: nat, rows: seq<Tx>)
    requires forall t :: t in rows ==> t.user == u && t.points < 0 && Refers(t, o, Adjust)
    ensures Sum(rows, XpOf(u)) == Sum(rows, PointsOf(u)) == Sum(rows, XpOfOrder(o))
    ensures forall q: nat :: q != o ==> Sum(rows, XpOfOrder(q)) == 0
  {
    SumCongruent(rows, XpOf(u), PointsOf(u));
    SumCongruent(rows, XpOfOrder(o), PointsOf(u));
    forall q: nat | q != o ensures Sum(rows, XpOfOrder(q)) == 0 {
      SumZero(rows, XpOfOrder(q));
    }
  }

  /** The books before the tier is recalculated. */
  lemma UndoKeepsLedgerInv(orders: map<nat, OrderRow>, s: Store, o: nat, listing: seq<nat>, now: int)
    requires LedgerInv(orders, s) && o in orders && orders[o].user.Some? && Reversible(s.ledger, o)
    requires Known(s.ledger, listing) && multiset(listing) == multiset(EarnIds(s.ledger, o))
    ensures LedgerInv(orders, Undo(s, orders[o].user.value, o, PointsList(s.ledger, listing), now).0)
  {
    var u := orders[o].user.value;
    var earned := PointsList(s.ledger, listing);
    UndoXpClampIdle(orders, s, o, listing, now);
    CreditKeepsLedgerInv(orders, s, o, now);
    var credited := s.(ledger := Restored(s.ledger, u, o, now));
    var rows := ReversalRows(u, o, earned, Balance(credited.ledger, u), now);
    ReversalRowShape(u, o, earned, Balance(credited.ledger, u), now);
    RemovalKeepsLedgerInv(orders, credited, Undo(s, u, o, earned, now).0, o, rows);
  }

  lemma ReverseKeepsLedgerInv(
    orders: map<nat, OrderRow>, s: Store, o: nat, cfg: Settings, tiers: seq<Tier>, listing: seq<nat>, now: int
  )
    requires LedgerInv(orders, s)
    requires Known(s.ledger, listing) && multiset(listing) == multiset(EarnIds(s.ledger, o))
    ensures LedgerInv(orders, Reverse(s, orders, o, cfg, tiers, listing, now).0)
  {
    if CallReverses(s, orders, o, cfg) {
      var u := orders[o].user.value;
      UndoKeepsLedgerInv(orders, s, o, listing, now);
      var undone := Undo(s, u, o, PointsList(s.ledger, listing), now).0;
      RecalculateKeepsLedgerInv(orders, undone, u, s.users[u].tier, cfg, tiers);
    }
  }

  lemma CreditSums(u: nat, o: nat, spent: int, now: int)
    requires spent >= 0
    ensures
      var credit := if spent > 0 then [Tx(u, spent, Adjust, Some(o), None, now)] else [];
      Sum(credit, PointsOf(u)) == spent && Sum(credit, XpOf(u)) == 0 &&
      forall q: nat :: Sum(credit, XpOfOrder(q)) == 0
  {
    var credit := if spent > 0 then [Tx(u, spent, Adjust, Some(o), None, now)] else [];
    if spent > 0 {
      SumAppend([], credit[0], PointsOf(u));
      assert [] + [credit[0]] == credit;
    }
    SumZero(credit, XpOf(u));
    forall q: nat ensures Sum(credit, XpOfOrder(q)) == 0 {
      SumZero(credit, XpOfOrder(q));
    }
  }

  lemma RedeemKeepsLedgerInv(
    orders: map<nat, OrderRow>, s: Store, u: nat, amount: int, currency: string, maxDiscount: real, on: Option<nat>,
    cfg: Settings, now: int
  )
    requires LedgerInv(orders, s)
    requires on.Some? ==> on.value in orders && orders[on.value].user == Some(u)
    ensures LedgerInv(orders, RedeemStep(s, u, amount, currency, maxDiscount, on, cfg, now).0)
  {
    var (after, r) := RedeemStep(s, u, amount, currency, maxDiscount, on, cfg, now);
    if r.Ok? {
      var row := Tx(u, -amount, Redeem, on, None, now);
      forall v: nat
        ensures Balance(after.ledger, v) >= 0
        ensures v in after.users ==> after.users[v].xp == Sum(after.ledger, XpOf(v))
      {
        SumAppend(s.ledger, row, PointsOf(v));
        SumAppend(s.ledger, row, XpOf(v));
        assert Balance(s.ledger, v) >= 0;
      }
      forall q: nat ensures Sum(after.ledger, XpOfOrder(q)) >= 0 {
        SumAppend(s.ledger, row, XpOfOrder(q));
      }
      RedeemKeepsRedeemedOnce(s, row, after.receipts);
    }
  }

  lemma RedeemKeepsRedeemedOnce(s: Store, row: Tx, receipts: map<nat, Receipt>)
    requires RedeemedOnce(s.ledger, s.receipts) && row.kind == Redeem
    requires row.order.None? ==> receipts == s.receipts
    requires row.order.Some? ==>
      !HasRow(s.ledger, row.order.value, Redeem) && row.order.value in receipts &&
      receipts == s.receipts[row.order.value := receipts[row.order.value]] &&
      receipts[row.order.value].points == -row.points
    ensures RedeemedOnce(s.ledger + [row], receipts)
  {
    var l' := s.ledger + [row];
    assert forall i, o: nat :: 0 <= i < |s.ledger| && Refers(s.ledger[i], o, Redeem) ==> row.order != Some(o);
    forall o | o in receipts ensures HasRow(l', o, Redeem) {
      if row.order == Some(o) {
        assert Refers(l'[|s.ledger|], o, Redeem);
      } else {
        var i :| 0 <= i < |s.ledger| && Refers(s.ledger[i], o, Redeem);
        assert Refers(l'[i], o, Redeem);
      }
    }
  }

  lemma GiveBonusKeepsLedgerInv(orders: map<nat, OrderRow>, s: Store, u: nat, o: nat, cfg: Settings, now: int)
    requires LedgerInv(orders, s) && cfg.bonusPoints >= 0
    ensures LedgerInv(orders, GiveBonus(s, u, o, cfg, now).0)
  {
    var after := GiveBonus(s, u, o, cfg, now).0;
    if after != s {
      var row := Tx(u, cfg.bonusPoints, Bonus, Some(o), None, now);
      SumAppend([], row, PointsOf(u));
      assert [] + [row] == [row];
      SumZero([row], XpOf(u));
      forall q: nat ensures Sum([row], XpOfOrder(q)) == 0 {
        SumZero([row], XpOfOrder(q));
      }
      assert Balance(s.ledger, u) >= 0;
      AppendKeepsLedgerInv(orders, s, after, u, [row]);
    }
  }

  lemma ExpireKeepsLedgerInv(orders: map<nat, OrderRow>, s: Store, u: nat, ids: seq<nat>, now: int)
    requires LedgerInv(orders, s)
    ensures LedgerInv(orders, ExpireBatch(s, u, ids, now))
  {
    var rows := ExpireRows(u, ids, PointsAt(s.ledger), Balance(s.ledger, u), now);
    ExpireRowShape(u, ids, PointsAt(s.ledger), Balance(s.ledger, u), now);
    assert Balance(s.ledger, u) >= 0;
    ExpireRowsKeepBalance(u, ids, PointsAt(s.ledger), Balance(s.ledger, u), now);
    SumZero(rows, XpOf(u));
    forall q: nat ensures Sum(rows, XpOfOrder(q)) == 0 {
      SumZero(rows, XpOfOrder(q));
    }
    AppendKeepsLedgerInv(orders, s, ExpireBatch(s, u, ids, now), u, rows);
  }

  // ----- every run -----

  /** The two assumptions on settings and catalogue: item points and the bonus are not negative. */
  predicate NonNegativeGrants(env: Env, s: Sys, a: Action)
    requires Enabled(env, s, a)
  {
    match a
    case RunAward(t, cfg, seen, _) =>
      var o := s.tasks[t].order;
      o in env.orders ==> NonNegativeItems(env.orders[o].items, cfg, Multiplier(seen))
    case RunBonus(_, cfg, _) => cfg.bonusPoints >= 0
    case _ => true
  }

  lemma StepKeepsLedgerInv(env: Env, s: Sys, a: Action)
    requires LedgerInv(env.orders, s.store) && Enabled(env, s, a) && NonNegativeGrants(env, s, a)
    ensures LedgerInv(env.orders, Apply(env, s, a).store)
  {
    match a
    case Deliver(_, _) =>
    case Lose(_) =>
    case RunAward(t, cfg, seen, now) =>
      AwardKeepsLedgerInv(env.orders, s.store, s.tasks[t].order, cfg, env.tiers, seen, now);
    case RunBonus(t, cfg, now) =>
      var o := s.tasks[t].order;
      GiveBonusKeepsLedgerInv(env.orders, s.store, env.orders[o].user.value, o, cfg, now);
    case RunReverse(o, cfg, listing, now) =>
      ReverseKeepsLedgerInv(env.orders, s.store, o, cfg, env.tiers, listing, now);
    case RunRedeem(u, amount, currency, maxDiscount, on, cfg, now) =>
      RedeemKeepsLedgerInv(env.orders, s.store, u, amount, currency, maxDiscount, on, cfg, now);
    case RunExpire(u, ids, now) => ExpireKeepsLedgerInv(env.orders, s.store, u, ids, now);
  }

  ghost predicate GrantsAlong(env: Env, s: Sys, acts: seq<Action>)
    requires OwnersExist(s.store, env.orders) && Legal(env, s, acts)
    decreases |acts|
  {
    acts == [] ||
    (NonNegativeGrants(env, s, acts[0]) &&
     (ApplyKeepsUsers(env, s, acts[0]);
      GrantsAlong(env, Apply(env, s, acts[0]), acts[1..])))
  }

  lemma {:induction false} RunKeepsLedgerInv(env: Env, s: Sys, acts: seq<Action>)
    requires LedgerInv(env.orders, s.store) && Legal(env, s, acts) && GrantsAlong(env, s, acts)
    ensures LedgerInv(env.orders, Run(env, s, acts).store)
    decreases |acts|
  {
    if acts != [] {
      StepKeepsLedgerInv(env, s, acts[0]);
      RunKeepsLedgerInv(env, Apply(env, s, acts[0]), acts[1..]);
    }
  }

  /**
   * Main result, over every interleaving from empty tables: no balance is ever negative; XP is the earned
   * points minus the reversals, and stays non-negative; an order's reversals never exceed what it earned;
   * an order is redeemed at most once, as its receipt says.
   */
  lemma EveryRunKeepsTheBooks(env: Env, s: Sys, acts: seq<Action>)
    requires Initial(env, s) && Legal(env, s, acts) && GrantsAlong(env, s, acts)
    ensures
      var end := Run(env, s, acts).store;
      (forall u: nat :: Balance(end.ledger, u) >= 0) &&
      (forall u :: u in end.users ==> end.users[u].xp == Sum(end.ledger, XpOf(u)) && end.users[u].xp >= 0) &&
      (forall o: nat :: Sum(end.ledger, XpOfOrder(o)) >= 0) &&
      RedeemedOnce(end.ledger, end.receipts)
  {
    RunKeepsLedgerInv(env, s, acts);
    var end := Run(env, s, acts).store;
    forall u | u in end.users ensures end.users[u].xp >= 0 {
      XpNonNegative(env.orders, end.ledger, u, env.orders.Keys);
      forall t | t in end.ledger ensures XpOf(u)(t) == XpOfIn(u, env.orders.Keys)(t) {
        var i :| 0 <= i < |end.ledger| && end.ledger[i] == t;
        assert RowSound(env.orders, t);
      }
      SumCongruent(end.ledger, XpOf(u), XpOfIn(u, env.orders.Keys));
    }
  }

  /** Once a reversal has changed anything, no later reversal of that order does, whatever ran in between. */
  lemma ReversalChangesOnce(env: Env, s: Sys, a: Action, acts: seq<Action>, again: Action)
    requires LedgerInv(env.orders, s.store) && a.RunReverse? && again.RunReverse? && again.order == a.order
    requires Legal(env, s, [a] + acts) && Enabled(env, Run(env, s, [a] + acts), again)
    requires Apply(env, s, a).store.users.Keys == s.store.users.Keys && BooksDiffer(s.store, Apply(env, s, a).store)
    ensures OwnersExist(Run(env, s, [a] + acts).store, env.orders)
    ensures Apply(env, Run(env, s, [a] + acts), again) == Run(env, s, [a] + acts)
  {
    var mid := Apply(env, s, a);
    RunExtends(env, s, [a] + acts);
    ApplyKeepsUsers(env, s, a);
    assert ([a] + acts)[1..] == acts;
    RunExtends(env, mid, acts);
    var o := a.order;
    if HasUser(env, o) {
      ReverseXpNonNegative(env, s, o);
    }
    ReversalHappensOnce(s.store, env.orders, o, a.cfg, env.tiers, a.listing, a.now);
    var later := Run(env, s, [a] + acts);
    ReversedStaysReversed(mid.store, later.store, env.orders, o, again.cfg, env.tiers, again.listing, again.now);
  }

  lemma ReverseXpNonNegative(env: Env, s: Sys, o: nat)
    requires LedgerInv(env.orders, s.store) && HasUser(env, o)
    ensures s.store.users[env.orders[o].user.value].xp >= 0
  {
    XpCoversOrder(env.orders, s.store.ledger, env.orders[o].user.value, o);
  }
}
