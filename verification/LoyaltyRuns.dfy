/**
 * Runs of the loyalty system: every interleaving of the locked sections of the five writers,
 * with `process_order_points` as a task of two sections that can be redelivered or lost.
 */
module LoyaltyRuns {
  import opened Wrappers
  import opened LoyaltyData
  import opened LoyaltySteps

  /** Where one execution of `process_order_points` stands. */
  datatype Progress = Started(order: nat) | Awarded(order: nat, total: int) | Finished

  datatype Sys = Sys(store: Store, tasks: map<nat, Progress>)

  /** Orders, their users and the tiers; settings may differ from step to step. */
  datatype Env = Env(orders: map<nat, OrderRow>, tiers: seq<Tier>)

  datatype Action =
    | Deliver(task: nat, order: nat)
    | RunAward(task: nat, cfg: Settings, seen: Option<Tier>, now: int)
    | RunBonus(task: nat, cfg: Settings, now: int)
    | Lose(task: nat)
    | RunReverse(order: nat, cfg: Settings, listing: seq<nat>, now: int)
    | RunRedeem(user: nat, amount: int, currency: string, maxDiscount: real, on: Option<nat>, cfg: Settings, now: int)
    | RunExpire(user: nat, ids: seq<nat>, now: int)

  predicate Enabled(env: Env, s: Sys, a: Action) {
    match a
    case Deliver(t, _) => t !in s.tasks
    case RunAward(t, _, _, _) => t in s.tasks && s.tasks[t].Started?
    // the bonus section runs only when the award section of the same execution awarded something
    case RunBonus(t, _, _) => t in s.tasks && s.tasks[t].Awarded? && s.tasks[t].total > 0 && HasUser(env, s.tasks[t].order)
    case Lose(t) => t in s.tasks
    case RunReverse(o, _, listing, _) =>
      Known(s.store.ledger, listing) && multiset(listing) == multiset(EarnIds(s.store.ledger, o))
    // the caller has looked the order up among the user's own orders
    case RunRedeem(u, _, _, _, on, _, _) => on.Some? ==> on.value in env.orders && env.orders[on.value].user == Some(u)
    // the list was read before the lock: it may be stale, but it names the user's positive EARN rows
    case RunExpire(u, ids, _) =>
      Known(s.store.ledger, ids) &&
      forall k :: 0 <= k < |ids| ==> var t := s.store.ledger[ids[k]]; t.user == u && t.kind == Earn && t.points > 0
  }

  predicate HasUser(env: Env, o: nat) {
    o in env.orders && env.orders[o].user.Some?
  }

  function Apply(env: Env, s: Sys, a: Action): Sys
    requires OwnersExist(s.store, env.orders) && Enabled(env, s, a)
  {
    match a
    case Deliver(t, o) => s.(tasks := s.tasks[t := Started(o)])
    case RunAward(t, cfg, seen, now) =>
      var o := s.tasks[t].order;
      var (store, total) := Award(s.store, env.orders, o, cfg, env.tiers, seen, now);
      Sys(store, s.tasks[t := Awarded(o, total)])
    case RunBonus(t, cfg, now) =>
      var o := s.tasks[t].order;
      Sys(GiveBonus(s.store, env.orders[o].user.value, o, cfg, now).0, s.tasks[t := Finished])
    case Lose(t) => s.(tasks := s.tasks - {t})
    case RunReverse(o, cfg, listing, now) =>
      s.(store := Reverse(s.store, env.orders, o, cfg, env.tiers, listing, now).0)
    case RunRedeem(u, amount, currency, maxDiscount, on, cfg, now) =>
      s.(store := RedeemStep(s.store, u, amount, currency, maxDiscount, on, cfg, now).0)
    case RunExpire(u, ids, now) => s.(store := ExpireBatch(s.store, u, ids, now))
  }

  lemma AwardKeepsUsers(env: Env, s: Store, o: nat, cfg: Settings, seen: Option<Tier>, now: int)
    requires OwnersExist(s, env.orders)
    ensures
      var after := Award(s, env.orders, o, cfg, env.tiers, seen, now).0;
      after.users.Keys == s.users.Keys && s.ledger <= after.ledger
  {
  }

  lemma ReverseKeepsUsers(env: Env, s: Store, o: nat, cfg: Settings, listing: seq<nat>, now: int)
    requires OwnersExist(s, env.orders) && Known(s.ledger, listing)
    ensures
      var after := Reverse(s, env.orders, o, cfg, env.tiers, listing, now).0;
      after.users.Keys == s.users.Keys && s.ledger <= after.ledger
  {
  }

  /** A reversal only appends ADJUST rows of its order. */
  lemma ReverseWritesAdjusts(env: Env, s: Store, o: nat, cfg: Settings, listing: seq<nat>, now: int)
    requires OwnersExist(s, env.orders) && Known(s.ledger, listing)
    ensures
      var l' := Reverse(s, env.orders, o, cfg, env.tiers, listing, now).0.ledger;
      s.ledger <= l' && forall i :: |s.ledger| <= i < |l'| ==> Refers(l'[i], o, Adjust)
  {
    var after := Reverse(s, env.orders, o, cfg, env.tiers, listing, now).0;
    if after != s {
      var u := env.orders[o].user.value;
      var credited := Restored(s.ledger, u, o, now);
      var rows := ReversalRows(u, o, PointsList(s.ledger, listing), Balance(credited, u), now);
      ReversalRowShape(u, o, PointsList(s.ledger, listing), Balance(credited, u), now);
      forall i | |credited| <= i < |after.ledger| ensures Refers(after.ledger[i], o, Adjust) {
        assert after.ledger[i] in rows;
      }
    }
  }

  /** No step removes an account. */
  lemma ApplyKeepsUsers(env: Env, s: Sys, a: Action)
    requires OwnersExist(s.store, env.orders) && Enabled(env, s, a)
    ensures Apply(env, s, a).store.users.Keys == s.store.users.Keys
    ensures OwnersExist(Apply(env, s, a).store, env.orders)
    ensures s.store.ledger <= Apply(env, s, a).store.ledger
  {
    match a
    case RunAward(t, cfg, seen, now) => AwardKeepsUsers(env, s.store, s.tasks[t].order, cfg, seen, now);
    case RunReverse(o, cfg, listing, now) => ReverseKeepsUsers(env, s.store, o, cfg, listing, now);
    case _ =>
  }

  ghost predicate Legal(env: Env, s: Sys, acts: seq<Action>)
    requires OwnersExist(s.store, env.orders)
    decreases |acts|
  {
    acts == [] ||
    (Enabled(env, s, acts[0]) &&
     (ApplyKeepsUsers(env, s, acts[0]);
      Legal(env, Apply(env, s, acts[0]), acts[1..])))
  }

  ghost function Run(env: Env, s: Sys, acts: seq<Action>): Sys
    requires OwnersExist(s.store, env.orders) && Legal(env, s, acts)
    decreases |acts|
  {
    if acts == [] then s else
      ApplyKeepsUsers(env, s, acts[0]);
      Run(env, Apply(env, s, acts[0]), acts[1..])
  }

  /** Accounts exist, and nothing has happened yet. */
  predicate Initial(env: Env, s: Sys) {
    s.store.ledger == [] && s.store.receipts == map[] && s.store.announced == [] && s.tasks == map[] &&
    (forall u :: u in s.store.users ==> s.store.users[u] == UserRow(0, None)) &&
    OwnersExist(s.store, env.orders)
  }

  /** The ledger is append-only: a run only adds rows, and it keeps every account. */
  lemma {:induction false} RunExtends(env: Env, s: Sys, acts: seq<Action>)
    requires OwnersExist(s.store, env.orders) && Legal(env, s, acts)
    ensures s.store.ledger <= Run(env, s, acts).store.ledger
    ensures OwnersExist(Run(env, s, acts).store, env.orders)
    decreases |acts|
  {
    if acts != [] {
      ApplyKeepsUsers(env, s, acts[0]);
      RunExtends(env, Apply(env, s, acts[0]), acts[1..]);
    }
  }
}
