/** At most one welcome bonus per user, over every interleaving and redelivery. */
module LoyaltyBonus {
  import opened Wrappers
  import opened LoyaltyData
  import opened LoyaltySteps
  import opened LoyaltyRuns

  /** An execution that will still run its bonus section. */
  predicate Pending(s: Sys, t: nat) {
    t in s.tasks && s.tasks[t].Awarded? && s.tasks[t].total > 0
  }

  /** The order's EARN row belongs to the order's user. */
  predicate EarnedBy(ledger: seq<Tx>, o: nat, u: nat) {
    exists i :: 0 <= i < |ledger| && Refers(ledger[i], o, Earn) && ledger[i].user == u
  }

  predicate BonusRowSound(env: Env, ledger: seq<Tx>, t: Tx) {
    t.kind == Bonus ==>
      t.order.Some? && HasUser(env, t.order.value) && env.orders[t.order.value].user == Some(t.user) &&
      EarnedBy(ledger, t.order.value, t.user)
  }

  ghost predicate BonusInv(env: Env, s: Sys) {
    var ledger := s.store.ledger;
    OwnersExist(s.store, env.orders) &&
    (forall i :: 0 <= i < |ledger| ==> BonusRowSound(env, ledger, ledger[i])) &&
    // an execution waiting for its bonus section is the only one for its order, and no bonus refers to that order
    (forall t :: Pending(s, t) ==>
      HasUser(env, s.tasks[t].order) && EarnedBy(ledger, s.tasks[t].order, env.orders[s.tasks[t].order].user.value) &&
      !HasRow(ledger, s.tasks[t].order, Bonus)) &&
    (forall t, r :: Pending(s, t) && Pending(s, r) && s.tasks[t].order == s.tasks[r].order ==> t == r) &&
    AtMostOneBonus(ledger)
  }

  predicate AtMostOneBonus(ledger: seq<Tx>) {
    forall i, j :: 0 <= i < j < |ledger| && ledger[i].kind == Bonus && ledger[j].kind == Bonus ==>
      ledger[i].user != ledger[j].user
  }

  /** Rows that are not bonuses, added at the end, disturb nothing the bonus argument relies on. */
  lemma AppendKeepsBonusInv(env: Env, s: Sys, s': Sys)
    requires BonusInv(env, s)
    requires s.store.ledger <= s'.store.ledger && s'.tasks == s.tasks && OwnersExist(s'.store, env.orders)
    requires forall i :: |s.store.ledger| <= i < |s'.store.ledger| ==> s'.store.ledger[i].kind != Bonus
    ensures BonusInv(env, s')
  {
    var l, l' := s.store.ledger, s'.store.ledger;
    assert forall i :: 0 <= i < |l| ==> l'[i] == l[i];
    forall o: nat, u: nat | EarnedBy(l, o, u) ensures EarnedBy(l', o, u) {
      var i :| 0 <= i < |l| && Refers(l[i], o, Earn) && l[i].user == u;
      assert Refers(l'[i], o, Earn);
    }
    forall i | 0 <= i < |l'| ensures BonusRowSound(env, l', l'[i]) {
      if i < |l| {
        assert BonusRowSound(env, l, l[i]);
      }
    }
    forall t | Pending(s', t)
      ensures !HasRow(l', s'.tasks[t].order, Bonus)
    {
      assert Pending(s, t);
      forall i | 0 <= i < |l'| ensures !Refers(l'[i], s.tasks[t].order, Bonus) {
        if i < |l| {
          assert !Refers(l[i], s.tasks[t].order, Bonus);
        }
      }
    }
    assert forall t :: Pending(s', t) ==> Pending(s, t);
  }

  lemma AwardKeepsBonusInv(env: Env, s: Sys, t: nat, cfg: Settings, seen: Option<Tier>, now: int)
    requires BonusInv(env, s) && t in s.tasks && s.tasks[t].Started?
    ensures BonusInv(env, Apply(env, s, RunAward(t, cfg, seen, now)))
  {
    var o := s.tasks[t].order;
    var (store, total) := Award(s.store, env.orders, o, cfg, env.tiers, seen, now);
    var mid := Sys(store, s.tasks);
    var s' := Apply(env, s, RunAward(t, cfg, seen, now));
    ApplyKeepsUsers(env, s, RunAward(t, cfg, seen, now));
    AppendKeepsBonusInv(env, s, mid);
    if total > 0 {
      var u := env.orders[o].user.value;
      var k := |s.store.ledger|;
      assert Refers(store.ledger[k], o, Earn) && store.ledger[k].user == u;
      assert !HasRow(s.store.ledger, o, Earn);
      forall r | Pending(s, r) ensures s.tasks[r].order != o {
        assert EarnedBy(s.store.ledger, s.tasks[r].order, env.orders[s.tasks[r].order].user.value);
      }
      forall i | 0 <= i < |store.ledger| ensures !Refers(store.ledger[i], o, Bonus) {
        if i < k {
          assert BonusRowSound(env, s.store.ledger, s.store.ledger[i]);
        }
      }
    }
    assert forall r :: r != t ==> (Pending(s', r) <==> Pending(mid, r));
  }

  lemma EarnedByExtends(l: seq<Tx>, l': seq<Tx>, o: nat, u: nat)
    requires l <= l' && EarnedBy(l, o, u)
    ensures EarnedBy(l', o, u)
  {
    var i :| 0 <= i < |l| && Refers(l[i], o, Earn) && l[i].user == u;
    assert Refers(l'[i], o, Earn);
  }

  /** One bonus row for an order that was earned and that no execution still waits for. */
  lemma AddBonusRow(env: Env, s: Sys, row: Tx, o: nat)
    requires BonusInv(env, s) && row.kind == Bonus && row.order == Some(o)
    requires HasUser(env, o) && env.orders[o].user == Some(row.user) && EarnedBy(s.store.ledger, o, row.user)
    requires forall t :: Pending(s, t) ==> s.tasks[t].order != o
    requires forall i :: 0 <= i < |s.store.ledger| && s.store.ledger[i].kind == Bonus ==> s.store.ledger[i].user != row.user
    ensures BonusInv(env, s.(store := s.store.(ledger := s.store.ledger + [row])))
  {
    var l := s.store.ledger;
    var l' := l + [row];
    var s' := s.(store := s.store.(ledger := l'));
    forall i | 0 <= i < |l'| ensures BonusRowSound(env, l', l'[i]) {
      if i < |l| {
        assert BonusRowSound(env, l, l[i]);
        if l[i].kind == Bonus { EarnedByExtends(l, l', l[i].order.value, l[i].user); }
      } else {
        EarnedByExtends(l, l', o, row.user);
      }
    }
    forall r | Pending(s', r)
      ensures HasUser(env, s.tasks[r].order)
      ensures EarnedBy(l', s.tasks[r].order, env.orders[s.tasks[r].order].user.value)
      ensures !HasRow(l', s.tasks[r].order, Bonus)
    {
      assert Pending(s, r);
      EarnedByExtends(l, l', s.tasks[r].order, env.orders[s.tasks[r].order].user.value);
      forall i | 0 <= i < |l'| ensures !Refers(l'[i], s.tasks[r].order, Bonus) {
        if i < |l| { assert !Refers(l[i], s.tasks[r].order, Bonus); }
      }
    }
    assert forall r :: Pending(s', r) ==> Pending(s, r);
  }

  /**
   * An earlier bonus of this user was paid for an order that was earned before: the same order is excluded
   * by the pending execution, any other by the check for EARN rows elsewhere.
   */
  lemma NoEarlierBonus(env: Env, s: Sys, t: nat, u: nat)
    requires BonusInv(env, s) && Pending(s, t) && env.orders[s.tasks[t].order].user == Some(u)
    requires !EarnedElsewhere(s.store.ledger, u, s.tasks[t].order)
    ensures forall i :: 0 <= i < |s.store.ledger| && s.store.ledger[i].kind == Bonus ==> s.store.ledger[i].user != u
  {
    var l := s.store.ledger;
    forall i | 0 <= i < |l| && l[i].kind == Bonus ensures l[i].user != u {
      assert BonusRowSound(env, l, l[i]);
      assert Refers(l[i], l[i].order.value, Bonus);
      var j :| 0 <= j < |l| && Refers(l[j], l[i].order.value, Earn) && l[j].user == l[i].user;
    }
  }

  lemma GiveBonusKeepsBonusInv(env: Env, s: Sys, t: nat, cfg: Settings, now: int)
    requires BonusInv(env, s) && Enabled(env, s, RunBonus(t, cfg, now))
    ensures BonusInv(env, Apply(env, s, RunBonus(t, cfg, now)))
  {
    var o := s.tasks[t].order;
    var u := env.orders[o].user.value;
    var rest := s.(tasks := s.tasks[t := Finished]);
    assert Pending(s, t);
    assert forall r :: Pending(rest, r) ==> Pending(s, r) && r != t;
    if cfg.bonusEnabled && !EarnedElsewhere(s.store.ledger, u, o) {
      NoEarlierBonus(env, s, t, u);
      AddBonusRow(env, rest, Tx(u, cfg.bonusPoints, Bonus, Some(o), None, now), o);
    }
  }

  lemma ReverseKeepsBonusInv(env: Env, s: Sys, o: nat, cfg: Settings, listing: seq<nat>, now: int)
    requires BonusInv(env, s) && Known(s.store.ledger, listing)
    ensures BonusInv(env, s.(store := Reverse(s.store, env.orders, o, cfg, env.tiers, listing, now).0))
  {
    var s' := s.(store := Reverse(s.store, env.orders, o, cfg, env.tiers, listing, now).0);
    if s'.store != s.store {
      var u := env.orders[o].user.value;
      var earned := PointsList(s.store.ledger, listing);
      ReversalRowShape(u, o, earned, Balance(Restored(s.store.ledger, u, o, now), u), now);
      AppendKeepsBonusInv(env, s, s');
    }
  }

  lemma ExpireKeepsBonusInv(env: Env, s: Sys, u: nat, ids: seq<nat>, now: int)
    requires BonusInv(env, s)
    ensures BonusInv(env, s.(store := ExpireBatch(s.store, u, ids, now)))
  {
    ExpireRowShape(u, ids, PointsAt(s.store.ledger), Balance(s.store.ledger, u), now);
    AppendKeepsBonusInv(env, s, s.(store := ExpireBatch(s.store, u, ids, now)));
  }

  lemma StepKeepsBonusInv(env: Env, s: Sys, a: Action)
    requires BonusInv(env, s) && Enabled(env, s, a)
    ensures BonusInv(env, Apply(env, s, a))
  {
    match a
    case Deliver(_, _) => assert forall r :: Pending(Apply(env, s, a), r) <==> Pending(s, r);
    case RunAward(t, cfg, seen, now) => AwardKeepsBonusInv(env, s, t, cfg, seen, now);
    case RunBonus(t, cfg, now) => GiveBonusKeepsBonusInv(env, s, t, cfg, now);
    case Lose(_) => assert forall r :: Pending(Apply(env, s, a), r) ==> Pending(s, r);
    case RunReverse(o, cfg, listing, now) => ReverseKeepsBonusInv(env, s, o, cfg, listing, now);
    case RunRedeem(_, _, _, _, _, _, _) => AppendKeepsBonusInv(env, s, Apply(env, s, a));
    case RunExpire(u, ids, now) => ExpireKeepsBonusInv(env, s, u, ids, now);
  }

  lemma {:induction false} RunKeepsBonusInv(env: Env, s: Sys, acts: seq<Action>)
    requires BonusInv(env, s) && Legal(env, s, acts)
    ensures BonusInv(env, Run(env, s, acts))
    decreases |acts|
  {
    if acts != [] {
      StepKeepsBonusInv(env, s, acts[0]);
      RunKeepsBonusInv(env, Apply(env, s, acts[0]), acts[1..]);
    }
  }

  /** Main result: no run from empty tables ever holds two BONUS rows of one user. */
  lemma BonusAtMostOnce(env: Env, s: Sys, acts: seq<Action>)
    requires Initial(env, s) && Legal(env, s, acts)
    ensures AtMostOneBonus(Run(env, s, acts).store.ledger)
  {
    RunKeepsBonusInv(env, s, acts);
  }

  /**
   * The check alone does not give this: called twice for the same order, it pays twice, because the
   * order's own EARN rows do not count against it. The gate in the task is what makes it safe.
   */
  lemma BonusCheckAloneRepeats(s: Store, u: nat, o: nat, cfg: Settings, now: int)
    ensures
      var first := GiveBonus(s, u, o, cfg, now);
      var second := GiveBonus(first.0, u, o, cfg, now);
      var paid := cfg.bonusEnabled && !EarnedElsewhere(s.ledger, u, o);
      second.0.ledger == s.ledger +
        if paid then [Tx(u, cfg.bonusPoints, Bonus, Some(o), None, now), Tx(u, cfg.bonusPoints, Bonus, Some(o), None, now)]
        else []
  {
    var first := GiveBonus(s, u, o, cfg, now).0;
    if !EarnedElsewhere(s.ledger, u, o) {
      forall i | 0 <= i < |first.ledger|
        ensures !(first.ledger[i].user == u && first.ledger[i].kind == Earn && first.ledger[i].order != Some(o))
      {
        assert i < |s.ledger| ==> first.ledger[i] == s.ledger[i];
      }
    }
  }

  // ----- who gets a bonus at all -----

  predicate HasBonus(ledger: seq<Tx>, u: nat) {
    exists i :: 0 <= i < |ledger| && ledger[i].kind == Bonus && ledger[i].user == u
  }

  predicate HasEarned(ledger: seq<Tx>, u: nat) {
    exists i :: 0 <= i < |ledger| && ledger[i].kind == Earn && ledger[i].user == u
  }

  /** A bonus section of the user that finds the setting on and no EARN row of another order. */
  predicate Pays(env: Env, s: Sys, a: Action, u: nat)
    requires Enabled(env, s, a)
  {
    a.RunBonus? && a.cfg.bonusEnabled &&
    var o := s.tasks[a.task].order;
    env.orders[o].user == Some(u) && !EarnedElsewhere(s.store.ledger, u, o)
  }

  ghost predicate PaysAlong(env: Env, s: Sys, acts: seq<Action>, u: nat)
    requires OwnersExist(s.store, env.orders) && Legal(env, s, acts)
    decreases |acts|
  {
    acts != [] &&
    (Pays(env, s, acts[0], u) ||
     (ApplyKeepsUsers(env, s, acts[0]);
      PaysAlong(env, Apply(env, s, acts[0]), acts[1..], u)))
  }

  lemma NoNewBonus(l: seq<Tx>, l': seq<Tx>, u: nat)
    requires l <= l' && forall i :: |l| <= i < |l'| ==> l'[i].kind != Bonus
    ensures HasBonus(l', u) <==> HasBonus(l, u)
  {
    if i :| 0 <= i < |l| && l[i].kind == Bonus && l[i].user == u {
      assert l'[i] == l[i];
    }
  }

  lemma StepBonusIff(env: Env, s: Sys, a: Action, u: nat)
    requires OwnersExist(s.store, env.orders) && Enabled(env, s, a)
    ensures HasBonus(Apply(env, s, a).store.ledger, u) <==> HasBonus(s.store.ledger, u) || Pays(env, s, a, u)
  {
    var l, l' := s.store.ledger, Apply(env, s, a).store.ledger;
    match a
    case RunBonus(t, cfg, now) =>
      if l' != l {
        assert l'[|l|].kind == Bonus && forall i :: 0 <= i < |l| ==> l'[i] == l[i];
      }
    case RunReverse(o, cfg, listing, now) =>
      ReverseWritesAdjusts(env, s.store, o, cfg, listing, now);
      NoNewBonus(l, l', u);
    case RunExpire(v, ids, now) =>
      ExpireRowShape(v, ids, PointsAt(l), Balance(l, v), now);
      NoNewBonus(l, l', u);
    case _ => NoNewBonus(l, l', u);
  }

  /** A run ends with a bonus of the user exactly when there was one, or one of its bonus sections paid. */
  lemma {:induction false} BonusPaidIff(env: Env, s: Sys, acts: seq<Action>, u: nat)
    requires OwnersExist(s.store, env.orders) && Legal(env, s, acts)
    ensures HasBonus(Run(env, s, acts).store.ledger, u) <==> HasBonus(s.store.ledger, u) || PaysAlong(env, s, acts, u)
    decreases |acts|
  {
    if acts != [] {
      StepBonusIff(env, s, acts[0], u);
      ApplyKeepsUsers(env, s, acts[0]);
      BonusPaidIff(env, Apply(env, s, acts[0]), acts[1..], u);
    }
  }

  /** The user has earned, and every execution of theirs that still waits would find another order's points. */
  ghost predicate Blocked(env: Env, s: Sys, u: nat) {
    HasEarned(s.store.ledger, u) &&
    forall t :: Pending(s, t) && HasUser(env, s.tasks[t].order) && env.orders[s.tasks[t].order].user == Some(u) ==>
      EarnedElsewhere(s.store.ledger, u, s.tasks[t].order)
  }

  lemma EarnedElsewhereStays(l: seq<Tx>, l': seq<Tx>, u: nat, o: nat)
    requires l <= l'
    ensures EarnedElsewhere(l, u, o) ==> EarnedElsewhere(l', u, o)
    ensures HasEarned(l, u) ==> HasEarned(l', u)
  {
    if i :| 0 <= i < |l| && l[i].user == u && l[i].kind == Earn && l[i].order != Some(o) {
      assert l'[i] == l[i];
    }
    if i :| 0 <= i < |l| && l[i].kind == Earn && l[i].user == u {
      assert l'[i] == l[i];
    }
  }

  /** The award of an order not earned before: if the user had earned at all, it was on another order. */
  lemma NewOrderFindsOther(l: seq<Tx>, u: nat, o: nat)
    requires HasEarned(l, u) && !HasRow(l, o, Earn)
    ensures EarnedElsewhere(l, u, o)
  {
    var i :| 0 <= i < |l| && l[i].kind == Earn && l[i].user == u;
    assert !Refers(l[i], o, Earn);
  }

  lemma StepKeepsBlocked(env: Env, s: Sys, a: Action, u: nat)
    requires OwnersExist(s.store, env.orders) && Enabled(env, s, a) && Blocked(env, s, u)
    ensures Blocked(env, Apply(env, s, a), u) && !Pays(env, s, a, u)
  {
    var s' := Apply(env, s, a);
    ApplyKeepsUsers(env, s, a);
    EarnedElsewhereStays(s.store.ledger, s'.store.ledger, u, 0);
    if a.RunBonus? {
      assert Pending(s, a.task);
    }
    forall t | Pending(s', t) && HasUser(env, s'.tasks[t].order) && env.orders[s'.tasks[t].order].user == Some(u)
      ensures EarnedElsewhere(s'.store.ledger, u, s'.tasks[t].order)
    {
      var o := s'.tasks[t].order;
      EarnedElsewhereStays(s.store.ledger, s'.store.ledger, u, o);
      if a.RunAward? && a.task == t {
        assert s.tasks[t].order == o && !HasRow(s.store.ledger, o, Earn);
        NewOrderFindsOther(s.store.ledger, u, o);
      } else {
        assert Pending(s, t);
      }
    }
  }

  lemma {:induction false} BlockedForGood(env: Env, s: Sys, acts: seq<Action>, u: nat)
    requires OwnersExist(s.store, env.orders) && Legal(env, s, acts) && Blocked(env, s, u)
    ensures HasBonus(Run(env, s, acts).store.ledger, u) <==> HasBonus(s.store.ledger, u)
    decreases |acts|
  {
    if acts != [] {
      StepKeepsBlocked(env, s, acts[0], u);
      StepBonusIff(env, s, acts[0], u);
      ApplyKeepsUsers(env, s, acts[0]);
      BlockedForGood(env, Apply(env, s, acts[0]), acts[1..], u);
    }
  }

  /**
   * Main result on missing bonuses: for a user who has earned but has no bonus, some continuation still
   * pays one if and only if an execution waits for its bonus section and no other order has been earned.
   */
  lemma BonusStillPossibleIff(env: Env, s: Sys, u: nat, cfg: Settings)
    requires OwnersExist(s.store, env.orders) && HasEarned(s.store.ledger, u) && !HasBonus(s.store.ledger, u)
    requires cfg.bonusEnabled
    ensures (exists acts :: Legal(env, s, acts) && HasBonus(Run(env, s, acts).store.ledger, u)) <==> !Blocked(env, s, u)
  {
    if Blocked(env, s, u) {
      forall acts | Legal(env, s, acts) ensures !HasBonus(Run(env, s, acts).store.ledger, u) {
        BlockedForGood(env, s, acts, u);
      }
    } else {
      var t :| Pending(s, t) && HasUser(env, s.tasks[t].order) && env.orders[s.tasks[t].order].user == Some(u) &&
        !EarnedElsewhere(s.store.ledger, u, s.tasks[t].order);
      var acts := [RunBonus(t, cfg, 0)];
      ApplyKeepsUsers(env, s, acts[0]);
      assert acts[1..] == [] && Legal(env, s, acts);
      BonusPaidIff(env, s, acts, u);
    }
  }

  /** Two first orders that are both awarded before either bonus section block each other. */
  lemma ConcurrentFirstOrdersBlock(env: Env, s: Sys, u: nat, a: nat, b: nat)
    requires a != b && EarnedBy(s.store.ledger, a, u) && EarnedBy(s.store.ledger, b, u)
    ensures Blocked(env, s, u)
  {
    var l := s.store.ledger;
    var i :| 0 <= i < |l| && Refers(l[i], a, Earn) && l[i].user == u;
    var j :| 0 <= j < |l| && Refers(l[j], b, Earn) && l[j].user == u;
    forall o: nat ensures EarnedElsewhere(l, u, o) {
      assert l[i].order != Some(o) || l[j].order != Some(o);
    }
  }

  /** So does the loss of the only execution that was still to pay. */
  lemma LostExecutionBlocks(env: Env, s: Sys, t: nat, u: nat)
    requires HasEarned(s.store.ledger, u) && t in s.tasks
    requires forall r ::
      Pending(s, r) && HasUser(env, s.tasks[r].order) && env.orders[s.tasks[r].order].user == Some(u) ==> r == t
    ensures Blocked(env, s.(tasks := s.tasks - {t}), u)
  {
    var s' := s.(tasks := s.tasks - {t});
    assert forall r :: Pending(s', r) ==> Pending(s, r) && r != t;
  }
}
