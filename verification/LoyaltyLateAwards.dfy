/** Award and reversal of one order when their tasks do not run in the order in which they were meant. */
module LoyaltyLateAwards {
  import opened Wrappers
  import opened Folds
  import opened LoyaltyData
  import opened LoyaltySteps
  import opened LoyaltyReversal
  import opened LoyaltyRuns
  import opened LoyaltyTiers
  import opened LoyaltyLedger

  /** What of an order's points still counts as XP. */
  function OrderXp(ledger: seq<Tx>, o: nat): int {
    Sum(ledger, XpOfOrder(o))
  }

  function EarnTotal(ledger: seq<Tx>, o: nat): int {
    Sum(ledger, OrderPointsOf(o, Earn))
  }

  /** Rows that leave an order alone: no EARN and no ADJUST row refers to it. */
  ghost predicate LeavesAlone(l: seq<Tx>, l': seq<Tx>, o: nat) {
    l <= l' && forall i :: |l| <= i < |l'| ==> !Refers(l'[i], o, Earn) && !Refers(l'[i], o, Adjust)
  }

  lemma LeftAlone(l: seq<Tx>, l': seq<Tx>, o: nat)
    requires LeavesAlone(l, l', o)
    ensures OrderXp(l', o) == OrderXp(l, o) && EarnTotal(l', o) == EarnTotal(l, o)
    ensures HasRow(l', o, Earn) <==> HasRow(l, o, Earn)
    ensures HasRow(l', o, Adjust) <==> HasRow(l, o, Adjust)
  {
    var rows := l'[|l|..];
    assert l' == l + rows;
    SumConcat(l, rows, XpOfOrder(o));
    SumConcat(l, rows, OrderPointsOf(o, Earn));
    SumZero(rows, XpOfOrder(o));
    SumZero(rows, OrderPointsOf(o, Earn));
    RowsKept(l, l', o, Earn);
    RowsKept(l, l', o, Adjust);
  }

  lemma RowsKept(l: seq<Tx>, l': seq<Tx>, o: nat, kind: Kind)
    requires l <= l'
    ensures HasRow(l, o, kind) ==> HasRow(l', o, kind)
    ensures HasRow(l', o, kind) && (forall i :: |l| <= i < |l'| ==> !Refers(l'[i], o, kind)) ==> HasRow(l, o, kind)
  {
    if i :| 0 <= i < |l| && Refers(l[i], o, kind) {
      assert Refers(l'[i], o, kind);
    }
    if i :| 0 <= i < |l'| && Refers(l'[i], o, kind) {
      assert i < |l| ==> Refers(l[i], o, kind);
    }
  }

  /** The step neither awards the order nor reverses it. */
  ghost predicate Spares(env: Env, s: Sys, a: Action, o: nat)
    requires Enabled(env, s, a)
  {
    (a.RunAward? && s.tasks[a.task].order == o ==> !CallAwards(s.store, env.orders, o, a.cfg)) &&
    (a.RunReverse? && a.order == o ==> !CallReverses(s.store, env.orders, o, a.cfg))
  }

  lemma AwardWritesItsOrder(env: Env, s: Store, o: nat, cfg: Settings, seen: Option<Tier>, now: int)
    requires OwnersExist(s, env.orders)
    ensures
      var l' := Award(s, env.orders, o, cfg, env.tiers, seen, now).0.ledger;
      s.ledger <= l' && forall i :: |s.ledger| <= i < |l'| ==> Refers(l'[i], o, Earn)
  {
    var after := Award(s, env.orders, o, cfg, env.tiers, seen, now).0;
    if CallAwards(s, env.orders, o, cfg) {
      var rows := AwardRows(env.orders[o].user.value, o, env.orders[o].items, cfg, Multiplier(seen), now);
      forall i | |s.ledger| <= i < |after.ledger| ensures Refers(after.ledger[i], o, Earn) {
        assert after.ledger[i] in rows;
      }
    }
  }

  /** A step that spares the order leaves its rows alone. */
  lemma SparingStep(env: Env, s: Sys, a: Action, o: nat)
    requires OwnersExist(s.store, env.orders) && Enabled(env, s, a) && Spares(env, s, a, o)
    ensures LeavesAlone(s.store.ledger, Apply(env, s, a).store.ledger, o)
  {
    match a
    case RunAward(t, cfg, seen, now) => AwardWritesItsOrder(env, s.store, s.tasks[t].order, cfg, seen, now);
    case RunReverse(q, cfg, listing, now) => ReverseWritesAdjusts(env, s.store, q, cfg, listing, now);
    case RunExpire(u, ids, now) => ExpireRowShape(u, ids, PointsAt(s.store.ledger), Balance(s.store.ledger, u), now);
    case _ =>
  }

  // ----- an order that was adjusted before it was earned -----

  /** Neither award nor reversal of the order can run any more. */
  predicate Settled(ledger: seq<Tx>, o: nat) {
    HasRow(ledger, o, Earn) && HasRow(ledger, o, Adjust)
  }

  /** From then on nothing the system does takes the order's points back or adds to them. */
  lemma {:induction false} SettledForGood(env: Env, s: Sys, acts: seq<Action>, o: nat)
    requires OwnersExist(s.store, env.orders) && Legal(env, s, acts) && Settled(s.store.ledger, o)
    ensures
      var l := Run(env, s, acts).store.ledger;
      Settled(l, o) && OrderXp(l, o) == OrderXp(s.store.ledger, o) && EarnTotal(l, o) == EarnTotal(s.store.ledger, o)
    decreases |acts|
  {
    if acts != [] {
      ApplyKeepsUsers(env, s, acts[0]);
      SparingStep(env, s, acts[0], o);
      LeftAlone(s.store.ledger, Apply(env, s, acts[0]).store.ledger, o);
      SettledForGood(env, Apply(env, s, acts[0]), acts[1..], o);
    }
  }

  // ----- the later reversal -----

  ghost predicate SparedAlong(env: Env, s: Sys, acts: seq<Action>, o: nat)
    requires OwnersExist(s.store, env.orders) && Legal(env, s, acts)
    decreases |acts|
  {
    acts == [] ||
    (Spares(env, s, acts[0], o) &&
     (ApplyKeepsUsers(env, s, acts[0]);
      SparedAlong(env, Apply(env, s, acts[0]), acts[1..], o)))
  }

  lemma {:induction false} SparedRun(env: Env, s: Sys, acts: seq<Action>, o: nat)
    requires OwnersExist(s.store, env.orders) && Legal(env, s, acts) && SparedAlong(env, s, acts, o)
    ensures
      var l, l' := s.store.ledger, Run(env, s, acts).store.ledger;
      OrderXp(l', o) == OrderXp(l, o) && EarnTotal(l', o) == EarnTotal(l, o) &&
      (HasRow(l', o, Earn) <==> HasRow(l, o, Earn)) && (HasRow(l', o, Adjust) <==> HasRow(l, o, Adjust))
    decreases |acts|
  {
    if acts != [] {
      ApplyKeepsUsers(env, s, acts[0]);
      SparingStep(env, s, acts[0], o);
      LeftAlone(s.store.ledger, Apply(env, s, acts[0]).store.ledger, o);
      SparedRun(env, Apply(env, s, acts[0]), acts[1..], o);
    }
  }

  /** Before its award an order contributes nothing. */
  lemma UnearnedOrder(ledger: seq<Tx>, o: nat)
    requires !HasRow(ledger, o, Earn) && OrderXp(ledger, o) >= 0
    ensures OrderXp(ledger, o) == 0 && EarnTotal(ledger, o) == 0
  {
    forall t | t in ledger ensures XpOfOrder(o)(t) <= 0 && OrderPointsOf(o, Earn)(t) == 0 {
      var i :| 0 <= i < |ledger| && ledger[i] == t;
      assert !Refers(ledger[i], o, Earn);
    }
    SumAtLeast(ledger, XpOfOrder(o), (t: Tx) => 0);
    SumZero(ledger, (t: Tx) => 0);
    SumZero(ledger, OrderPointsOf(o, Earn));
  }

  /** After it, it contributes what it earned; the award writes no ADJUST row. */
  lemma AwardedOrder(env: Env, s: Store, o: nat, cfg: Settings, seen: Option<Tier>, now: int)
    requires OwnersExist(s, env.orders) && CallAwards(s, env.orders, o, cfg) && OrderXp(s.ledger, o) >= 0
    ensures
      var (after, total) := Award(s, env.orders, o, cfg, env.tiers, seen, now);
      OrderXp(after.ledger, o) == EarnTotal(after.ledger, o) == total &&
      (HasRow(after.ledger, o, Adjust) <==> HasRow(s.ledger, o, Adjust))
  {
    var u := env.orders[o].user.value;
    var rows := AwardRows(u, o, env.orders[o].items, cfg, Multiplier(seen), now);
    var after := Award(s, env.orders, o, cfg, env.tiers, seen, now).0;
    UnearnedOrder(s.ledger, o);
    SumConcat(s.ledger, rows, XpOfOrder(o));
    SumConcat(s.ledger, rows, OrderPointsOf(o, Earn));
    SumCongruent(rows, XpOfOrder(o), PointsOf(u));
    SumCongruent(rows, OrderPointsOf(o, Earn), PointsOf(u));
    AwardWritesItsOrder(env, s, o, cfg, seen, now);
    RowsKept(s.ledger, after.ledger, o, Adjust);
  }

  /** Restoring does not count as XP, taking back does. */
  lemma UndoneOrder(orders: map<nat, OrderRow>, s: Store, o: nat, earned: seq<int>, now: int)
    requires LedgerInv(orders, s) && o in orders && orders[o].user.Some?
    ensures
      var (undone, removed) := Undo(s, orders[o].user.value, o, earned, now);
      OrderXp(undone.ledger, o) == OrderXp(s.ledger, o) - removed
  {
    var u := orders[o].user.value;
    var credited := Restored(s.ledger, u, o, now);
    var rows := ReversalRows(u, o, earned, Balance(credited, u), now);
    CreditKeepsLedgerInv(orders, s, o, now);
    ReversalRowShape(u, o, earned, Balance(credited, u), now);
    RemovalSums(u, o, rows);
    SumConcat(credited, rows, XpOfOrder(o));
  }

  /** What a reversal takes from the order's XP. */
  lemma ReversalOfOrder(env: Env, s: Store, o: nat, cfg: Settings, listing: seq<nat>, now: int)
    requires LedgerInv(env.orders, s) && CallReverses(s, env.orders, o, cfg)
    requires Known(s.ledger, listing) && multiset(listing) == multiset(EarnIds(s.ledger, o))
    ensures
      var after := Reverse(s, env.orders, o, cfg, env.tiers, listing, now).0;
      OrderXp(after.ledger, o) == OrderXp(s.ledger, o)
        - Min(EarnTotal(s.ledger, o), Balance(s.ledger, env.orders[o].user.value) + Spent(s.ledger, o))
  {
    var u := env.orders[o].user.value;
    EarnedRowsSound(env.orders, s);
    assert Balance(s.ledger, u) >= 0;
    SpentNonNegative(env.orders, s.ledger, o);
    ListedEarns(s.ledger, o, listing);
    UndoRemoves(s, u, o, PointsList(s.ledger, listing), now);
    UndoneOrder(env.orders, s, o, PointsList(s.ledger, listing), now);
    ReverseUndoes(s, env.orders, o, cfg, env.tiers, listing, now);
  }

  lemma EarnedRowsSound(orders: map<nat, OrderRow>, s: Store)
    requires LedgerInv(orders, s)
    ensures EarnsNonNegative(s.ledger)
  {
    forall i | 0 <= i < |s.ledger| && s.ledger[i].kind == Earn ensures s.ledger[i].points >= 0 {
      assert RowSound(orders, s.ledger[i]);
    }
  }

  /** The order is awarded at `s` and earns something; nothing touches it until `mid`. */
  ghost predicate AwardedThen(env: Env, s: Sys, award: Action, acts: seq<Action>, o: nat, earned: int, mid: Sys) {
    LedgerInv(env.orders, s.store) && award.RunAward? && Enabled(env, s, award) && NonNegativeGrants(env, s, award) &&
    s.tasks[award.task].order == o && CallAwards(s.store, env.orders, o, award.cfg) &&
    earned == Award(s.store, env.orders, o, award.cfg, env.tiers, award.seen, award.now).1 > 0 &&
    var next := Apply(env, s, award);
    OwnersExist(next.store, env.orders) && Legal(env, next, acts) && GrantsAlong(env, next, acts) &&
    SparedAlong(env, next, acts, o) && mid == Run(env, next, acts)
  }

  lemma BeforeReversal(env: Env, s: Sys, award: Action, acts: seq<Action>, o: nat, earned: int, mid: Sys)
    requires AwardedThen(env, s, award, acts, o, earned, mid)
    ensures LedgerInv(env.orders, mid.store) && HasUser(env, o) && HasRow(mid.store.ledger, o, Earn)
    ensures OrderXp(mid.store.ledger, o) == EarnTotal(mid.store.ledger, o) == earned
    ensures HasRow(mid.store.ledger, o, Adjust) <==> HasRow(s.store.ledger, o, Adjust)
  {
    var next := Apply(env, s, award);
    StepKeepsLedgerInv(env, s, award);
    RunKeepsLedgerInv(env, next, acts);
    AwardedOrder(env, s.store, o, award.cfg, award.seen, award.now);
    EarnedSomething(next.store.ledger, o);
    SparedRun(env, next, acts, o);
  }

  /**
   * Main result on tasks out of order. An order is awarded, anything else runs, then the order is reversed: the
   * reversal takes back all it can, the smaller of the order's points and the restored balance, if and only if
   * no ADJUST row of the order was there before the award. Otherwise it takes back nothing.
   */
  lemma LaterReversalTakesBackIff(
    env: Env, s: Sys, award: Action, acts: seq<Action>, o: nat, earned: int, mid: Sys, reversal: Action
  )
    requires AwardedThen(env, s, award, acts, o, earned, mid)
    requires OwnersExist(mid.store, env.orders) && Enabled(env, mid, reversal)
    requires reversal.RunReverse? && reversal.order == o && reversal.cfg.enabled
    ensures HasUser(env, o)
    ensures
      var restored := Balance(mid.store.ledger, env.orders[o].user.value) + Spent(mid.store.ledger, o);
      OrderXp(Apply(env, mid, reversal).store.ledger, o)
        == earned - if HasRow(s.store.ledger, o, Adjust) then 0 else Min(earned, restored)
  {
    BeforeReversal(env, s, award, acts, o, earned, mid);
    ReversalStep(env, mid, reversal);
  }

  /** The reversal step of an earned order. */
  lemma ReversalStep(env: Env, s: Sys, a: Action)
    requires LedgerInv(env.orders, s.store) && Enabled(env, s, a) && a.RunReverse? && a.cfg.enabled
    requires HasUser(env, a.order) && HasRow(s.store.ledger, a.order, Earn)
    ensures
      var l := s.store.ledger;
      OrderXp(Apply(env, s, a).store.ledger, a.order) == OrderXp(l, a.order) - if HasRow(l, a.order, Adjust) then 0 else
        Min(EarnTotal(l, a.order), Balance(l, env.orders[a.order].user.value) + Spent(l, a.order))
  {
    if !HasRow(s.store.ledger, a.order, Adjust) {
      ReversalOfOrder(env, s.store, a.order, a.cfg, a.listing, a.now);
    }
  }

  lemma EarnedSomething(ledger: seq<Tx>, o: nat)
    requires EarnTotal(ledger, o) > 0
    ensures HasRow(ledger, o, Earn)
  {
    if !HasRow(ledger, o, Earn) {
      forall t | t in ledger ensures OrderPointsOf(o, Earn)(t) == 0 {
        var i :| 0 <= i < |ledger| && ledger[i] == t;
        assert !Refers(ledger[i], o, Earn);
      }
      SumZero(ledger, OrderPointsOf(o, Earn));
    }
  }

  /** A reversal that runs before anything refers to the order changes nothing and leaves no trace. */
  lemma EarlyReversalDoesNothing(env: Env, s: Sys, reversal: Action)
    requires OwnersExist(s.store, env.orders) && Enabled(env, s, reversal) && reversal.RunReverse?
    requires !HasRow(s.store.ledger, reversal.order, Earn) && !HasRow(s.store.ledger, reversal.order, Redeem)
    ensures Apply(env, s, reversal) == s
  {
  }
}
