/** Tier agreement over whole runs whose award sections read an up-to-date user. */
module LoyaltyTierRuns {
  import opened Wrappers
  import opened Folds
  import opened LoyaltyData
  import opened LoyaltySteps
  import opened LoyaltyReversal
  import opened LoyaltyRuns
  import opened LoyaltyBonus
  import opened LoyaltyLedger
  import opened LoyaltyTiers

  /** The settings are fixed, and an award sees the user as it is under the lock. */
  predicate Serialized(env: Env, s: Sys, a: Action, cfg: Settings)
    requires OwnersExist(s.store, env.orders) && Enabled(env, s, a)
  {
    match a
    case RunAward(t, c, seen, _) =>
      c == cfg &&
      (HasUser(env, s.tasks[t].order) ==> seen == s.store.users[env.orders[s.tasks[t].order].user.value].tier)
    case RunReverse(_, c, _, _) => c == cfg
    case _ => true
  }

  predicate HasRows(ledger: seq<Tx>, u: nat) {
    exists i :: 0 <= i < |ledger| && ledger[i].user == u
  }

  /** Every user the ledger knows has the highest tier their XP qualifies for; the others have none or that one. */
  ghost predicate TiersRight(s: Store, cfg: Settings, tiers: seq<Tier>) {
    forall u :: u in s.users ==>
      TierSettled(s, u, cfg, tiers) && (HasRows(s.ledger, u) ==> TierAgrees(s, u, cfg, tiers))
  }

  ghost predicate TierInv(env: Env, s: Sys, cfg: Settings) {
    LedgerInv(env.orders, s.store) && BonusInv(env, s) && TiersRight(s.store, cfg, env.tiers)
  }

  /** What a step may announce: an award only "up", a reversal only "down", anything else nothing. */
  ghost predicate AnnouncesRightly(s: Sys, a: Action, s': Sys) {
    s'.store.announced == s.store.announced ||
    exists change: TierChange :: s'.store.announced == s.store.announced + [change] &&
      (a.RunAward? || a.RunReverse?) && (change.direction == if a.RunAward? then Up else Down)
  }

  lemma {:induction false} NoRowsNoBalance(ledger: seq<Tx>, u: nat)
    requires !HasRows(ledger, u)
    ensures Balance(ledger, u) == 0
  {
    forall t | t in ledger ensures PointsOf(u)(t) == 0 {
      var i :| 0 <= i < |ledger| && ledger[i] == t;
    }
    SumZero(ledger, PointsOf(u));
  }

  /** One locked section for one user: the other users keep their rows, XP and tier. */
  predicate OnlyTouches(s: Store, s': Store, u: nat) {
    s.ledger <= s'.ledger && s'.users.Keys == s.users.Keys &&
    (forall i :: |s.ledger| <= i < |s'.ledger| ==> s'.ledger[i].user == u) &&
    (forall v :: v in s.users && v != u ==> s'.users[v] == s.users[v])
  }

  lemma TouchKeepsTiersRight(s: Store, s': Store, u: nat, cfg: Settings, tiers: seq<Tier>)
    requires TiersRight(s, cfg, tiers) && OnlyTouches(s, s', u)
    requires u in s'.users ==> TierAgrees(s', u, cfg, tiers)
    ensures TiersRight(s', cfg, tiers)
  {
    forall v | v in s'.users
      ensures TierSettled(s', v, cfg, tiers) && (HasRows(s'.ledger, v) ==> TierAgrees(s', v, cfg, tiers))
    {
      if v != u && HasRows(s'.ledger, v) {
        var i :| 0 <= i < |s'.ledger| && s'.ledger[i].user == v;
        assert s.ledger[i].user == v;
      }
    }
  }

  lemma AwardTouches(env: Env, s: Store, o: nat, cfg: Settings, seen: Option<Tier>, now: int)
    requires OwnersExist(s, env.orders) && CallAwards(s, env.orders, o, cfg)
    ensures OnlyTouches(s, Award(s, env.orders, o, cfg, env.tiers, seen, now).0, env.orders[o].user.value)
  {
    var u := env.orders[o].user.value;
    var rows := AwardRows(u, o, env.orders[o].items, cfg, Multiplier(seen), now);
    var after := Award(s, env.orders, o, cfg, env.tiers, seen, now).0;
    forall i | |s.ledger| <= i < |after.ledger| ensures after.ledger[i].user == u {
      assert after.ledger[i] in rows;
    }
  }

  lemma ReverseTouches(env: Env, s: Store, o: nat, cfg: Settings, listing: seq<nat>, now: int)
    requires OwnersExist(s, env.orders) && CallReverses(s, env.orders, o, cfg) && Known(s.ledger, listing)
    ensures OnlyTouches(s, Reverse(s, env.orders, o, cfg, env.tiers, listing, now).0, env.orders[o].user.value)
  {
    var u := env.orders[o].user.value;
    var earned := PointsList(s.ledger, listing);
    var credited := Restored(s.ledger, u, o, now);
    ReversalRowShape(u, o, earned, Balance(credited, u), now);
    var rows := ReversalRows(u, o, earned, Balance(credited, u), now);
    var after := Reverse(s, env.orders, o, cfg, env.tiers, listing, now).0;
    forall i | |s.ledger| <= i < |after.ledger| ensures after.ledger[i].user == u {
      if i >= |credited| { assert after.ledger[i] in rows; }
    }
  }

  lemma AwardStepTiers(env: Env, s: Sys, t: nat, cfg: Settings, seen: Option<Tier>, now: int)
    requires DistinctLevels(env.tiers) && TierInv(env, s, cfg)
    requires Enabled(env, s, RunAward(t, cfg, seen, now)) && Serialized(env, s, RunAward(t, cfg, seen, now), cfg)
    requires NonNegativeGrants(env, s, RunAward(t, cfg, seen, now))
    ensures TiersRight(Apply(env, s, RunAward(t, cfg, seen, now)).store, cfg, env.tiers)
    ensures AnnouncesRightly(s, RunAward(t, cfg, seen, now), Apply(env, s, RunAward(t, cfg, seen, now)))
  {
    var o := s.tasks[t].order;
    if CallAwards(s.store, env.orders, o, cfg) {
      var u := env.orders[o].user.value;
      AwardRowsSums(env.orders, u, o, cfg, Multiplier(seen), now);
      AwardMovesUp(s.store, env.orders, o, cfg, env.tiers, now);
      AwardTouches(env, s.store, o, cfg, seen, now);
      var after := Award(s.store, env.orders, o, cfg, env.tiers, seen, now).0;
      TouchKeepsTiersRight(s.store, after, u, cfg, env.tiers);
      if after.users[u].tier != seen {
        var change := TierChange(u, seen, after.users[u].tier, Up);
        assert after.announced == s.store.announced + [change] && change.direction == Up;
      }
    }
  }

  lemma ReverseStepTiers(env: Env, s: Sys, o: nat, cfg: Settings, listing: seq<nat>, now: int)
    requires DistinctLevels(env.tiers) && TierInv(env, s, cfg)
    requires Enabled(env, s, RunReverse(o, cfg, listing, now))
    ensures TiersRight(Apply(env, s, RunReverse(o, cfg, listing, now)).store, cfg, env.tiers)
    ensures AnnouncesRightly(s, RunReverse(o, cfg, listing, now), Apply(env, s, RunReverse(o, cfg, listing, now)))
  {
    if CallReverses(s.store, env.orders, o, cfg) {
      var u := env.orders[o].user.value;
      ReversibleHasRows(env, s.store, o, cfg);
      ReversalNotNegative(env, s.store, o, cfg, listing, now);
      ReversalMovesDown(s.store, env.orders, o, cfg, env.tiers, listing, now);
      ReverseTouches(env, s.store, o, cfg, listing, now);
      var after := Reverse(s.store, env.orders, o, cfg, env.tiers, listing, now).0;
      TouchKeepsTiersRight(s.store, after, u, cfg, env.tiers);
      if after.users[u].tier != s.store.users[u].tier {
        var change := TierChange(u, s.store.users[u].tier, after.users[u].tier, Down);
        assert after.announced == s.store.announced + [change] && change.direction == Down;
      }
    }
  }

  lemma ReversibleHasRows(env: Env, s: Store, o: nat, cfg: Settings)
    requires LedgerInv(env.orders, s) && CallReverses(s, env.orders, o, cfg)
    ensures HasRows(s.ledger, env.orders[o].user.value)
  {
    var i :| 0 <= i < |s.ledger| && (Refers(s.ledger[i], o, Earn) || Refers(s.ledger[i], o, Redeem));
    assert RowSound(env.orders, s.ledger[i]);
  }

  lemma ReversalNotNegative(env: Env, s: Store, o: nat, cfg: Settings, listing: seq<nat>, now: int)
    requires LedgerInv(env.orders, s) && CallReverses(s, env.orders, o, cfg)
    requires Known(s.ledger, listing) && multiset(listing) == multiset(EarnIds(s.ledger, o))
    ensures s.users[env.orders[o].user.value].xp >= 0
    ensures Reverse(s, env.orders, o, cfg, env.tiers, listing, now).1 >= 0
  {
    XpCoversOrder(env.orders, s.ledger, env.orders[o].user.value, o);
    forall i | 0 <= i < |s.ledger| && s.ledger[i].kind == Earn ensures s.ledger[i].points >= 0 {
      assert RowSound(env.orders, s.ledger[i]);
    }
    assert Balance(s.ledger, env.orders[o].user.value) >= 0;
    ReversalRemoves(s, env.orders, o, cfg, env.tiers, listing, now);
  }

  lemma OtherStepTiers(env: Env, s: Sys, a: Action, cfg: Settings)
    requires TierInv(env, s, cfg) && Enabled(env, s, a) && !a.RunAward? && !a.RunReverse?
    ensures TiersRight(Apply(env, s, a).store, cfg, env.tiers)
    ensures Apply(env, s, a).store.announced == s.store.announced
  {
    var s' := Apply(env, s, a);
    if s'.store.ledger != s.store.ledger {
      var u :=
        if a.RunBonus? then env.orders[s.tasks[a.task].order].user.value else a.user;
      assert HasRows(s.store.ledger, u) by {
        match a
        case RunBonus(t, _, _) => assert Pending(s, t);
        case RunRedeem(_, _, _, _, _, _, _) => if !HasRows(s.store.ledger, u) { NoRowsNoBalance(s.store.ledger, u); }
        case RunExpire(_, ids, _) => assert s.store.ledger[ids[0]].user == u;
        case _ =>
      }
      if a.RunExpire? {
        ExpireRowShape(u, a.ids, PointsAt(s.store.ledger), Balance(s.store.ledger, u), a.now);
      }
      TouchKeepsTiersRight(s.store, s'.store, u, cfg, env.tiers);
    }
  }

  lemma StepKeepsTierInv(env: Env, s: Sys, a: Action, cfg: Settings)
    requires DistinctLevels(env.tiers) && TierInv(env, s, cfg)
    requires Enabled(env, s, a) && Serialized(env, s, a, cfg) && NonNegativeGrants(env, s, a)
    ensures TierInv(env, Apply(env, s, a), cfg)
    ensures AnnouncesRightly(s, a, Apply(env, s, a))
  {
    StepKeepsLedgerInv(env, s, a);
    StepKeepsBonusInv(env, s, a);
    match a
    case RunAward(t, c, seen, now) => AwardStepTiers(env, s, t, c, seen, now);
    case RunReverse(o, c, listing, now) => ReverseStepTiers(env, s, o, c, listing, now);
    case _ => OtherStepTiers(env, s, a, cfg);
  }

  ghost predicate SerializedRun(env: Env, s: Sys, acts: seq<Action>, cfg: Settings)
    requires OwnersExist(s.store, env.orders) && Legal(env, s, acts)
    decreases |acts|
  {
    acts == [] ||
    (Serialized(env, s, acts[0], cfg) &&
     (ApplyKeepsUsers(env, s, acts[0]);
      SerializedRun(env, Apply(env, s, acts[0]), acts[1..], cfg)))
  }

  lemma {:induction false} RunKeepsTierInv(env: Env, s: Sys, acts: seq<Action>, cfg: Settings)
    requires DistinctLevels(env.tiers) && TierInv(env, s, cfg)
    requires Legal(env, s, acts) && SerializedRun(env, s, acts, cfg) && GrantsAlong(env, s, acts)
    ensures TierInv(env, Run(env, s, acts), cfg)
    decreases |acts|
  {
    if acts != [] {
      StepKeepsTierInv(env, s, acts[0], cfg);
      RunKeepsTierInv(env, Apply(env, s, acts[0]), acts[1..], cfg);
    }
  }

  /**
   * Main result for serialized runs from empty tables: every user with a ledger row has exactly the highest
   * tier their XP qualifies for, and whatever step comes next, an award announces only "up" and a reversal
   * only "down".
   */
  lemma SerializedRunsKeepTiersRight(env: Env, s: Sys, acts: seq<Action>, next: Action, cfg: Settings)
    requires DistinctLevels(env.tiers) && Initial(env, s)
    requires Legal(env, s, acts) && SerializedRun(env, s, acts, cfg) && GrantsAlong(env, s, acts)
    ensures TiersRight(Run(env, s, acts).store, cfg, env.tiers)
    ensures OwnersExist(Run(env, s, acts).store, env.orders)
    ensures
      var end := Run(env, s, acts);
      Enabled(env, end, next) && Serialized(env, end, next, cfg) && NonNegativeGrants(env, end, next)
      ==> AnnouncesRightly(end, next, Apply(env, end, next))
  {
    RunKeepsTierInv(env, s, acts, cfg);
    var end := Run(env, s, acts);
    if Enabled(env, end, next) && Serialized(env, end, next, cfg) && NonNegativeGrants(env, end, next) {
      StepKeepsTierInv(env, end, next, cfg);
    }
  }

  // ----- any run, stale snapshots included -----

  /** The step is an award or a reversal that changes the user's rows. */
  ghost predicate TouchesTier(env: Env, s: Sys, a: Action, u: nat)
    requires Enabled(env, s, a)
  {
    match a
    case RunAward(t, cfg, _, _) =>
      CallAwards(s.store, env.orders, s.tasks[t].order, cfg) && env.orders[s.tasks[t].order].user == Some(u)
    case RunReverse(o, cfg, _, _) => CallReverses(s.store, env.orders, o, cfg) && env.orders[o].user == Some(u)
    case _ => false
  }

  /** Such a step leaves the right tier: a reversal always, an award unless its snapshot is due and the row is not. */
  predicate LeavesRight(env: Env, s: Sys, a: Action, u: nat)
    requires OwnersExist(s.store, env.orders) && Enabled(env, s, a) && u in s.store.users
  {
    match a
    case RunAward(t, cfg, seen, now) =>
      var o := s.tasks[t].order;
      o in env.orders ==>
        var due := DueAfterAward(s.store, u, o, env.orders[o].items, cfg, env.tiers, seen, now);
        seen != due || s.store.users[u].tier == due
    case _ => true
  }

  ghost predicate NeverTouched(env: Env, s: Sys, acts: seq<Action>, u: nat)
    requires OwnersExist(s.store, env.orders) && Legal(env, s, acts)
    decreases |acts|
  {
    acts == [] ||
    (!TouchesTier(env, s, acts[0], u) &&
     (ApplyKeepsUsers(env, s, acts[0]);
      NeverTouched(env, Apply(env, s, acts[0]), acts[1..], u)))
  }

  /** The last step that touched the user left the right tier; without one, the tier was right to begin with. */
  ghost predicate LastTouchRight(env: Env, s: Sys, acts: seq<Action>, u: nat, cfg: Settings)
    requires OwnersExist(s.store, env.orders) && Legal(env, s, acts) && u in s.store.users
    decreases |acts|
  {
    if acts == [] then TierAgrees(s.store, u, cfg, env.tiers) else
      ApplyKeepsUsers(env, s, acts[0]);
      var next := Apply(env, s, acts[0]);
      if NeverTouched(env, next, acts[1..], u)
      then if TouchesTier(env, s, acts[0], u) then LeavesRight(env, s, acts[0], u)
           else TierAgrees(s.store, u, cfg, env.tiers)
      else LastTouchRight(env, next, acts[1..], u, cfg)
  }

  predicate FixedSettings(acts: seq<Action>, cfg: Settings) {
    forall i :: 0 <= i < |acts| && (acts[i].RunAward? || acts[i].RunReverse?) ==> acts[i].cfg == cfg
  }

  lemma UntouchedStep(env: Env, s: Sys, a: Action, u: nat)
    requires OwnersExist(s.store, env.orders) && Enabled(env, s, a) && u in s.store.users && !TouchesTier(env, s, a, u)
    ensures u in Apply(env, s, a).store.users && Apply(env, s, a).store.users[u] == s.store.users[u]
  {
  }

  lemma {:induction false} NeverTouchedKeeps(env: Env, s: Sys, acts: seq<Action>, u: nat)
    requires OwnersExist(s.store, env.orders) && Legal(env, s, acts) && u in s.store.users && NeverTouched(env, s, acts, u)
    ensures u in Run(env, s, acts).store.users && Run(env, s, acts).store.users[u] == s.store.users[u]
    decreases |acts|
  {
    if acts != [] {
      ApplyKeepsUsers(env, s, acts[0]);
      UntouchedStep(env, s, acts[0], u);
      NeverTouchedKeeps(env, Apply(env, s, acts[0]), acts[1..], u);
    }
  }

  lemma TouchAgreesIff(env: Env, s: Sys, a: Action, u: nat, cfg: Settings)
    requires OwnersExist(s.store, env.orders) && Enabled(env, s, a) && TouchesTier(env, s, a, u)
    requires a.cfg == cfg && u in s.store.users && u in Apply(env, s, a).store.users
    ensures TierAgrees(Apply(env, s, a).store, u, cfg, env.tiers) <==> LeavesRight(env, s, a, u)
  {
    match a
    case RunAward(t, c, seen, now) =>
      AwardAgreesIff(s.store, env.orders, s.tasks[t].order, c, env.tiers, seen, now);
    case RunReverse(o, c, listing, now) =>
      ReversalSettlesTier(s.store, env.orders, o, c, env.tiers, listing, now);
    case _ =>
  }

  /**
   * Main result for any run, however stale the snapshots: at its end a user has the right tier if and only if
   * the last award or reversal that touched them left it right, or none did and it was right before.
   */
  lemma {:induction false} TierRightAtEndIff(env: Env, s: Sys, acts: seq<Action>, u: nat, cfg: Settings)
    requires OwnersExist(s.store, env.orders) && Legal(env, s, acts) && FixedSettings(acts, cfg) && u in s.store.users
    ensures u in Run(env, s, acts).store.users
    ensures TierAgrees(Run(env, s, acts).store, u, cfg, env.tiers) <==> LastTouchRight(env, s, acts, u, cfg)
    decreases |acts|
  {
    if acts != [] {
      ApplyKeepsUsers(env, s, acts[0]);
      var next := Apply(env, s, acts[0]);
      assert FixedSettings(acts[1..], cfg) by {
        assert forall i :: 0 <= i < |acts[1..]| ==> acts[1..][i] == acts[i + 1];
      }
      TierRightAtEndIff(env, next, acts[1..], u, cfg);
      if NeverTouched(env, next, acts[1..], u) {
        NeverTouchedKeeps(env, next, acts[1..], u);
        if TouchesTier(env, s, acts[0], u) {
          TouchAgreesIff(env, s, acts[0], u, cfg);
        } else {
          UntouchedStep(env, s, acts[0], u);
        }
      }
    }
  }
}
