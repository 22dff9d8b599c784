/** Concrete runs of the loyalty system that end where its promises fail. */
module LoyaltyScenarios {
  import opened Wrappers
  import opened Folds
  import opened LoyaltyData
  import opened LoyaltySteps
  import opened LoyaltyRuns
  import opened LoyaltyTiers
  import opened LoyaltyBonus
  import opened LoyaltyLedger
  import opened LoyaltyLateAwards

  // ----- runs given by their states -----

  ghost predicate Leads(env: Env, s: Sys, a: Action, s': Sys) {
    OwnersExist(s.store, env.orders) && Enabled(env, s, a) && Apply(env, s, a) == s'
  }

  ghost predicate Path(env: Env, states: seq<Sys>, acts: seq<Action>) {
    |states| == |acts| + 1 && forall i :: 0 <= i < |acts| ==> Leads(env, states[i], acts[i], states[i + 1])
  }

  lemma {:induction false} PathIsRun(env: Env, states: seq<Sys>, acts: seq<Action>)
    requires Path(env, states, acts) && OwnersExist(states[0].store, env.orders)
    ensures Legal(env, states[0], acts) && Run(env, states[0], acts) == states[|acts|]
    ensures OwnersExist(states[|acts|].store, env.orders)
    decreases |acts|
  {
    if acts != [] {
      assert Leads(env, states[0], acts[0], states[1]);
      ApplyKeepsUsers(env, states[0], acts[0]);
      forall i | 0 <= i < |acts[1..]| ensures Leads(env, states[1..][i], acts[1..][i], states[1..][i + 1]) {
        var next := i + 1;
        assert Leads(env, states[next], acts[next], states[next + 1]);
      }
      PathIsRun(env, states[1..], acts[1..]);
    }
  }

  lemma RunOfTwo(env: Env, s0: Sys, a1: Action, s1: Sys, a2: Action, s2: Sys)
    requires Leads(env, s0, a1, s1) && Leads(env, s1, a2, s2)
    ensures OwnersExist(s0.store, env.orders)
    ensures Legal(env, s0, [a1, a2]) && Run(env, s0, [a1, a2]) == s2
  {
    PathIsRun(env, [s0, s1, s2], [a1, a2]);
  }

  lemma RunOfThree(env: Env, s0: Sys, a1: Action, s1: Sys, a2: Action, s2: Sys, a3: Action, s3: Sys)
    requires Leads(env, s0, a1, s1) && Leads(env, s1, a2, s2) && Leads(env, s2, a3, s3)
    ensures OwnersExist(s0.store, env.orders) && OwnersExist(s3.store, env.orders)
    ensures Legal(env, s0, [a1, a2, a3]) && Run(env, s0, [a1, a2, a3]) == s3
  {
    PathIsRun(env, [s0, s1, s2, s3], [a1, a2, a3]);
  }

  lemma RunOfFour(
    env: Env, s0: Sys, a1: Action, s1: Sys, a2: Action, s2: Sys, a3: Action, s3: Sys, a4: Action, s4: Sys
  )
    requires Leads(env, s0, a1, s1) && Leads(env, s1, a2, s2) && Leads(env, s2, a3, s3) && Leads(env, s3, a4, s4)
    ensures OwnersExist(s0.store, env.orders) && OwnersExist(s4.store, env.orders)
    ensures Legal(env, s0, [a1, a2, a3, a4]) && Run(env, s0, [a1, a2, a3, a4]) == s4
  {
    PathIsRun(env, [s0, s1, s2, s3, s4], [a1, a2, a3, a4]);
  }

  // ----- the shop -----

  const CUSTOMER: nat := 5

  /** Two orders of one customer with one item each, and one tier from the second level on. */
  function Shop(item: Line): Env {
    Env(map[1 := OrderRow(Some(CUSTOMER), [item]), 2 := OrderRow(Some(CUSTOMER), [item])], [GOLD])
  }

  /** The item is worth a thousand points, and a level takes a thousand. */
  predicate ThousandEach(cfg: Settings, item: Line) {
    cfg.enabled && cfg.xpPerLevel == 1000 && ItemPoints(cfg, item, 1.0) == 1000
  }

  /** Such settings and items exist. */
  lemma ThousandExists(bonus: bool)
    ensures
      var cfg := THOUSAND_A_LEVEL.(bonusEnabled := bonus);
      ThousandEach(cfg, THOUSAND_POINTS) && cfg.ratioEur != 0.0
  {
    PointsOnly(THOUSAND_A_LEVEL.(bonusEnabled := bonus), THOUSAND_POINTS, 1.0);
  }

  /** A single item whose coefficient is zero is worth its own points. */
  lemma PointsOnly(cfg: Settings, line: Line, multiplier: real)
    requires line.product.coefficient == 0.0 && line.quantity == 1
    ensures ItemPoints(cfg, line, multiplier) == line.product.points
  {
    var amount := PriceBasisAmount(cfg, line.product) * cfg.factor;
    assert amount * line.product.coefficient == 0.0;
    assert Rate(cfg, line.product, multiplier) == 0.0;
  }

  function Customer(xp: int, tier: Option<Tier>): map<nat, UserRow> {
    map[CUSTOMER := UserRow(xp, tier)]
  }

  function Books(ledger: seq<Tx>, xp: int, tier: Option<Tier>, announced: seq<TierChange>): Store {
    Store(ledger, Customer(xp, tier), map[], announced)
  }

  function Earned(o: nat): Tx {
    Tx(CUSTOMER, 1000, Earn, Some(o), None, 0)
  }

  const TAKEN_BACK := Tx(CUSTOMER, -1000, Adjust, Some(1), None, 0)
  const MADE_GOLD := TierChange(CUSTOMER, None, Some(GOLD), Up)
  const LOST_GOLD := TierChange(CUSTOMER, Some(GOLD), None, Down)

  lemma GoldFromSecondLevel(cfg: Settings, xp: int)
    requires cfg.xpPerLevel == 1000
    ensures TierFor(cfg, [GOLD], xp) == if xp >= 1000 then Some(GOLD) else None
  {
    LevelReached(cfg, xp, 2);
    assert [GOLD][1..] == [];
  }

  /** The award of an order with one item, spelled out. */
  lemma AwardOne(
    s: Store, orders: map<nat, OrderRow>, o: nat, u: nat, item: Line, points: int, cfg: Settings, tiers: seq<Tier>,
    seen: Option<Tier>, due: Option<Tier>
  )
    requires OwnersExist(s, orders) && CallAwards(s, orders, o, cfg) && orders[o] == OrderRow(Some(u), [item])
    requires ItemPoints(cfg, item, Multiplier(seen)) == points && TierFor(cfg, tiers, s.users[u].xp + points) == due
    ensures
      var row := s.users[u];
      var tier := if seen == due then row.tier else due;
      Award(s, orders, o, cfg, tiers, seen, 0) == (
        Store(s.ledger + [Tx(u, points, Earn, Some(o), None, 0)], s.users[u := UserRow(row.xp + points, tier)], s.receipts,
          s.announced + if tier == row.tier then [] else [TierChange(u, row.tier, tier, DirectionOf(row.tier, tier))]),
        points)
  {
    OneItemTotal(u, o, item, cfg, Multiplier(seen), 0);
    var row := s.users[u];
    var paid := Grant(s, u, [Tx(u, points, Earn, Some(o), None, 0)]);
    assert paid.users == s.users[u := row.(xp := row.xp + points)];
    assert s.users[u := row.(xp := row.xp + points)][u := UserRow(row.xp + points, due)]
        == s.users[u := UserRow(row.xp + points, due)];
    assert s.announced + [] == s.announced;
  }

  /** Awarding one of the two orders: the tier is saved unless the snapshot carries it already. */
  lemma ShopAward(s: Store, item: Line, o: nat, cfg: Settings, seen: Option<Tier>, due: Option<Tier>)
    requires ThousandEach(cfg, item) && o in Shop(item).orders && s.users.Keys == {CUSTOMER} && !HasRow(s.ledger, o, Earn)
    requires seen.None? || seen == Some(GOLD)
    requires due == if s.users[CUSTOMER].xp >= 0 then Some(GOLD) else None
    ensures OwnersExist(s, Shop(item).orders)
    ensures
      var (xp, tier) := (s.users[CUSTOMER].xp, s.users[CUSTOMER].tier);
      var tier' := if seen == due then tier else due;
      Award(s, Shop(item).orders, o, cfg, Shop(item).tiers, seen, 0) == (
        Store(s.ledger + [Earned(o)], s.users[CUSTOMER := UserRow(xp + 1000, tier')], s.receipts,
          s.announced + if tier' == tier then [] else [TierChange(CUSTOMER, tier, tier', DirectionOf(tier, tier'))]),
        1000)
  {
    GoldFromSecondLevel(cfg, s.users[CUSTOMER].xp + 1000);
    AwardOne(s, Shop(item).orders, o, CUSTOMER, item, 1000, cfg, Shop(item).tiers, seen, due);
  }

  /** The task's award section, for an award with that outcome. */
  lemma AwardStep(env: Env, s: Sys, t: nat, cfg: Settings, seen: Option<Tier>, after: Store)
    requires OwnersExist(s.store, env.orders) && t in s.tasks && s.tasks[t].Started?
    requires Award(s.store, env.orders, s.tasks[t].order, cfg, env.tiers, seen, 0) == (after, 1000)
    ensures Leads(env, s, RunAward(t, cfg, seen, 0), Sys(after, s.tasks[t := Awarded(s.tasks[t].order, 1000)]))
  {
  }

  lemma FirstAward(item: Line, cfg: Settings, t: nat, o: nat, tasks: map<nat, Progress>)
    requires ThousandEach(cfg, item) && o in Shop(item).orders && t in tasks && tasks[t] == Started(o)
    ensures Leads(Shop(item), Sys(Books([], 0, None, []), tasks), RunAward(t, cfg, None, 0),
      Sys(Books([Earned(o)], 1000, Some(GOLD), [MADE_GOLD]), tasks[t := Awarded(o, 1000)]))
  {
    var s := Books([], 0, None, []);
    ShopAward(s, item, o, cfg, None, Some(GOLD));
    assert [] + [Earned(o)] == [Earned(o)] && [] + [MADE_GOLD] == [MADE_GOLD];
    assert Customer(0, None)[CUSTOMER := UserRow(1000, Some(GOLD))] == Customer(1000, Some(GOLD));
    AwardStep(Shop(item), Sys(s, tasks), t, cfg, None, Books([Earned(o)], 1000, Some(GOLD), [MADE_GOLD]));
  }

  lemma SecondAward(item: Line, cfg: Settings, t: nat, tasks: map<nat, Progress>)
    requires ThousandEach(cfg, item) && t in tasks && tasks[t] == Started(2)
    ensures Leads(Shop(item), Sys(Books([Earned(1)], 1000, Some(GOLD), [MADE_GOLD]), tasks), RunAward(t, cfg, None, 0),
      Sys(Books([Earned(1), Earned(2)], 2000, Some(GOLD), [MADE_GOLD]), tasks[t := Awarded(2, 1000)]))
  {
    var s := Books([Earned(1)], 1000, Some(GOLD), [MADE_GOLD]);
    ShopAward(s, item, 2, cfg, None, Some(GOLD));
    assert [Earned(1)] + [Earned(2)] == [Earned(1), Earned(2)] && [MADE_GOLD] + [] == [MADE_GOLD];
    assert Customer(1000, Some(GOLD))[CUSTOMER := UserRow(2000, Some(GOLD))] == Customer(2000, Some(GOLD));
    AwardStep(Shop(item), Sys(s, tasks), t, cfg, None, Books([Earned(1), Earned(2)], 2000, Some(GOLD), [MADE_GOLD]));
  }

  lemma StaleAward(item: Line, cfg: Settings, t: nat, tasks: map<nat, Progress>, announced: seq<TierChange>)
    requires ThousandEach(cfg, item) && t in tasks && tasks[t] == Started(2)
    ensures Leads(Shop(item), Sys(Books([Earned(1), TAKEN_BACK], 0, None, announced), tasks),
      RunAward(t, cfg, Some(GOLD), 0),
      Sys(Books([Earned(1), TAKEN_BACK, Earned(2)], 1000, None, announced), tasks[t := Awarded(2, 1000)]))
  {
    var s := Books([Earned(1), TAKEN_BACK], 0, None, announced);
    ShopAward(s, item, 2, cfg, Some(GOLD), Some(GOLD));
    assert [Earned(1), TAKEN_BACK] + [Earned(2)] == [Earned(1), TAKEN_BACK, Earned(2)] && announced + [] == announced;
    assert Customer(0, None)[CUSTOMER := UserRow(1000, None)] == Customer(1000, None);
    AwardStep(Shop(item), Sys(s, tasks), t, cfg, Some(GOLD), Books([Earned(1), TAKEN_BACK, Earned(2)], 1000, None, announced));
  }

  // ----- the reversal of the first order -----

  /** The ledger of the first order alone. */
  lemma OnlyEarned()
    ensures EarnIds([Earned(1)], 1) == [0] && Spent([Earned(1)], 1) == 0 && Balance([Earned(1)], CUSTOMER) == 1000
    ensures Reversible([Earned(1)], 1)
  {
    var l := [Earned(1)];
    assert l[..0] == [] && Refers(l[0], 1, Earn);
    assert EarnIds([], 1) == [];
    SumAppend([], l[0], PointsOf(CUSTOMER));
    SumAppend([], l[0], OrderPointsOf(1, Redeem));
    assert [] + [l[0]] == l;
  }

  lemma TakenBackRows()
    ensures ReversalRows(CUSTOMER, 1, [1000], 1000, 0) == [TAKEN_BACK]
    ensures Sum([TAKEN_BACK], PointsOf(CUSTOMER)) == -1000
  {
    assert [1000][..0] == [];
    assert ReversalRows(CUSTOMER, 1, [], 1000, 0) == [];
    SumAppend([], TAKEN_BACK, PointsOf(CUSTOMER));
    assert [] + [TAKEN_BACK] == [TAKEN_BACK];
  }

  lemma UndoIs(s: Store)
    requires s.ledger == [Earned(1)] && s.users == Customer(1000, Some(GOLD))
    ensures Undo(s, CUSTOMER, 1, [1000], 0)
      == (s.(ledger := [Earned(1), TAKEN_BACK], users := Customer(0, Some(GOLD))), 1000)
  {
    OnlyEarned();
    TakenBackRows();
    assert [Earned(1)] + [TAKEN_BACK] == [Earned(1), TAKEN_BACK];
    assert s.users[CUSTOMER := UserRow(0, Some(GOLD))] == Customer(0, Some(GOLD));
  }

  lemma ReverseIs(s: Store, item: Line, cfg: Settings)
    requires ThousandEach(cfg, item) && s == Books([Earned(1)], 1000, Some(GOLD), [MADE_GOLD])
    ensures OwnersExist(s, Shop(item).orders) && Known(s.ledger, [0])
    ensures Reverse(s, Shop(item).orders, 1, cfg, Shop(item).tiers, [0], 0).0
      == Books([Earned(1), TAKEN_BACK], 0, None, [MADE_GOLD, LOST_GOLD])
  {
    OnlyEarned();
    UndoIs(s);
    assert PointsList(s.ledger, [0]) == [1000];
    GoldFromSecondLevel(cfg, 0);
    assert Customer(0, Some(GOLD))[CUSTOMER := UserRow(0, None)] == Customer(0, None);
    assert [MADE_GOLD] + [LOST_GOLD] == [MADE_GOLD, LOST_GOLD];
  }

  lemma FirstReversed(item: Line, cfg: Settings, tasks: map<nat, Progress>)
    requires ThousandEach(cfg, item)
    ensures Leads(Shop(item), Sys(Books([Earned(1)], 1000, Some(GOLD), [MADE_GOLD]), tasks), RunReverse(1, cfg, [0], 0),
      Sys(Books([Earned(1), TAKEN_BACK], 0, None, [MADE_GOLD, LOST_GOLD]), tasks))
  {
    var s := Books([Earned(1)], 1000, Some(GOLD), [MADE_GOLD]);
    OnlyEarned();
    ReverseIs(s, item, cfg);
    ReverseStep(Shop(item), Sys(s, tasks), 1, cfg, [0], Books([Earned(1), TAKEN_BACK], 0, None, [MADE_GOLD, LOST_GOLD]));
  }

  /** A reversal with that outcome. */
  lemma ReverseStep(env: Env, s: Sys, o: nat, cfg: Settings, listing: seq<nat>, after: Store)
    requires OwnersExist(s.store, env.orders) && Known(s.store.ledger, listing)
    requires listing == EarnIds(s.store.ledger, o)
    requires Reverse(s.store, env.orders, o, cfg, env.tiers, listing, 0).0 == after
    ensures Leads(env, s, RunReverse(o, cfg, listing, 0), s.(store := after))
  {
  }

  lemma Delivered(item: Line, t: nat, o: nat, s: Sys)
    requires s.store.users.Keys == {CUSTOMER} && t !in s.tasks
    ensures Leads(Shop(item), s, Deliver(t, o), s.(tasks := s.tasks[t := Started(o)]))
  {
  }

  // ----- the runs -----

  function Opening(): Sys {
    Sys(Books([], 0, None, []), map[])
  }

  /** The second order's task is delivered, and its snapshot loaded, while the first order makes the customer gold. */
  function Loaded(): Sys {
    Sys(Books([Earned(1)], 1000, Some(GOLD), [MADE_GOLD]), map[1 := Awarded(1, 1000), 2 := Started(2)])
  }

  /** The customer's XP qualifies for gold, and they have no tier. */
  function Wronged(): Sys {
    Sys(Books([Earned(1), TAKEN_BACK, Earned(2)], 1000, None, [MADE_GOLD, LOST_GOLD]),
        map[1 := Awarded(1, 1000), 2 := Awarded(2, 1000)])
  }

  lemma StaleSnapshotLoads(item: Line, cfg: Settings)
    requires ThousandEach(cfg, item)
    ensures OwnersExist(Opening().store, Shop(item).orders) && OwnersExist(Loaded().store, Shop(item).orders)
    ensures
      var acts := [Deliver(1, 1), RunAward(1, cfg, None, 0), Deliver(2, 2)];
      Legal(Shop(item), Opening(), acts) && Run(Shop(item), Opening(), acts) == Loaded()
  {
    var t1: map<nat, Progress> := map[1 := Started(1)];
    var t2 := t1[1 := Awarded(1, 1000)];
    var s1 := Sys(Books([], 0, None, []), t1);
    var s2 := Sys(Books([Earned(1)], 1000, Some(GOLD), [MADE_GOLD]), t2);
    Delivered(item, 1, 1, Opening());
    FirstAward(item, cfg, 1, 1, t1);
    Delivered(item, 2, 2, s2);
    assert t2[2 := Started(2)] == Loaded().tasks;
    RunOfThree(Shop(item), Opening(), Deliver(1, 1), s1, RunAward(1, cfg, None, 0), s2, Deliver(2, 2), Loaded());
  }

  /**
   * The stale snapshot. The second order's task loads the customer while the first order's points make them
   * gold; the first order is reversed and the tier is taken away; the award of the second order brings the XP
   * back, but finds the snapshot gold already and saves nothing. The customer qualifies and has no tier.
   */
  lemma StaleSnapshotLosesTier(item: Line, cfg: Settings)
    requires ThousandEach(cfg, item)
    ensures Initial(Shop(item), Opening()) && OwnersExist(Loaded().store, Shop(item).orders)
    ensures
      var acts := [Deliver(1, 1), RunAward(1, cfg, None, 0), Deliver(2, 2)];
      Legal(Shop(item), Opening(), acts) && Run(Shop(item), Opening(), acts) == Loaded()
    ensures
      var acts := [RunReverse(1, cfg, [0], 0), RunAward(2, cfg, Some(GOLD), 0)];
      Legal(Shop(item), Loaded(), acts) && Run(Shop(item), Loaded(), acts) == Wronged()
    ensures !TierAgrees(Wronged().store, CUSTOMER, cfg, Shop(item).tiers)
  {
    StaleSnapshotLoads(item, cfg);
    var reversed := Sys(Books([Earned(1), TAKEN_BACK], 0, None, [MADE_GOLD, LOST_GOLD]), Loaded().tasks);
    FirstReversed(item, cfg, Loaded().tasks);
    StaleAward(item, cfg, 2, Loaded().tasks, [MADE_GOLD, LOST_GOLD]);
    assert Loaded().tasks[2 := Awarded(2, 1000)] == Wronged().tasks;
    RunOfTwo(Shop(item), Loaded(), RunReverse(1, cfg, [0], 0), reversed, RunAward(2, cfg, Some(GOLD), 0), Wronged());
    GoldFromSecondLevel(cfg, 1000);
  }

  function BothAwarded(): Sys {
    Sys(Books([Earned(1), Earned(2)], 2000, Some(GOLD), [MADE_GOLD]), map[1 := Awarded(1, 1000), 2 := Awarded(2, 1000)])
  }

  /** Two first orders at once: both awarded before either bonus section. */
  lemma ConcurrentFirstOrders(item: Line, cfg: Settings)
    requires ThousandEach(cfg, item)
    ensures OwnersExist(Opening().store, Shop(item).orders) && OwnersExist(BothAwarded().store, Shop(item).orders)
    ensures
      var acts := [Deliver(1, 1), Deliver(2, 2), RunAward(1, cfg, None, 0), RunAward(2, cfg, None, 0)];
      Legal(Shop(item), Opening(), acts) && Run(Shop(item), Opening(), acts) == BothAwarded()
  {
    var t1: map<nat, Progress> := map[1 := Started(1)];
    var t2 := t1[2 := Started(2)];
    var t3 := t2[1 := Awarded(1, 1000)];
    var s1, s2 := Sys(Books([], 0, None, []), t1), Sys(Books([], 0, None, []), t2);
    var s3 := Sys(Books([Earned(1)], 1000, Some(GOLD), [MADE_GOLD]), t3);
    Delivered(item, 1, 1, Opening());
    Delivered(item, 2, 2, s1);
    FirstAward(item, cfg, 1, 1, t2);
    SecondAward(item, cfg, 2, t3);
    assert t3[2 := Awarded(2, 1000)] == BothAwarded().tasks;
    RunOfFour(Shop(item), Opening(), Deliver(1, 1), s1, Deliver(2, 2), s2, RunAward(1, cfg, None, 0), s3,
      RunAward(2, cfg, None, 0), BothAwarded());
  }

  /** From there on, no continuation ever pays the new customer a bonus, whatever the settings. */
  lemma ConcurrentFirstOrdersGetNone(item: Line, cfg: Settings, acts: seq<Action>)
    requires ThousandEach(cfg, item)
    ensures OwnersExist(BothAwarded().store, Shop(item).orders)
    ensures Legal(Shop(item), BothAwarded(), acts) ==>
      !HasBonus(Run(Shop(item), BothAwarded(), acts).store.ledger, CUSTOMER)
  {
    ConcurrentFirstOrders(item, cfg);
    var l := BothAwarded().store.ledger;
    assert Refers(l[0], 1, Earn) && Refers(l[1], 2, Earn);
    ConcurrentFirstOrdersBlock(Shop(item), BothAwarded(), CUSTOMER, 1, 2);
    if Legal(Shop(item), BothAwarded(), acts) {
      BlockedForGood(Shop(item), BothAwarded(), acts, CUSTOMER);
    }
  }

  // ----- a cancelled order that keeps its points -----

  const SPENT := Tx(CUSTOMER, -500, Redeem, Some(2), None, 0)
  const GIVEN_BACK := Tx(CUSTOMER, 500, Adjust, Some(2), None, 0)

  function Discount(cfg: Settings): real
    requires cfg.ratioEur != 0.0
  {
    500 as real / cfg.ratioEur
  }

  /** Gold, with 500 of the first order's points spent on the second. */
  function Redeemed(cfg: Settings, ledger: seq<Tx>, xp: int): Store
    requires cfg.ratioEur != 0.0
  {
    Store(ledger, Customer(xp, Some(GOLD)), map[2 := Receipt(500, Discount(cfg))], [MADE_GOLD])
  }

  lemma NoMembers(ids: seq<nat>)
    ensures ids == [] <==> forall i :: i !in ids
  {
    if ids != [] { assert ids[0] in ids; }
  }

  lemma SpentOnSecond()
    ensures
      var l := [Earned(1), SPENT];
      Spent(l, 2) == 500 && EarnIds(l, 2) == [] && Reversible(l, 2) && !HasRow(l + [GIVEN_BACK], 2, Earn)
  {
    var l := [Earned(1), SPENT];
    assert [] + [Earned(1)] == [Earned(1)] && [Earned(1)] + [SPENT] == l;
    SumAppend([], Earned(1), OrderPointsOf(2, Redeem));
    SumAppend([Earned(1)], SPENT, OrderPointsOf(2, Redeem));
    assert Refers(l[1], 2, Redeem);
    NoMembers(EarnIds(l, 2));
  }

  lemma RedeemStepIs(item: Line, cfg: Settings, tasks: map<nat, Progress>)
    requires ThousandEach(cfg, item) && cfg.ratioEur != 0.0
    ensures Leads(Shop(item), Sys(Books([Earned(1)], 1000, Some(GOLD), [MADE_GOLD]), tasks),
      RunRedeem(CUSTOMER, 500, "EUR", Discount(cfg), Some(2), cfg, 0), Sys(Redeemed(cfg, [Earned(1), SPENT], 1000), tasks))
  {
    OnlyEarned();
    assert !HasRow([Earned(1)], 2, Redeem);
    assert [Earned(1)] + [SPENT] == [Earned(1), SPENT];
    var none: map<nat, Receipt> := map[];
    assert none[2 := Receipt(500, Discount(cfg))] == map[2 := Receipt(500, Discount(cfg))];
  }

  lemma SecondReversed(item: Line, cfg: Settings, tasks: map<nat, Progress>)
    requires ThousandEach(cfg, item) && cfg.ratioEur != 0.0
    ensures Leads(Shop(item), Sys(Redeemed(cfg, [Earned(1), SPENT], 1000), tasks), RunReverse(2, cfg, [], 0),
      Sys(Redeemed(cfg, [Earned(1), SPENT, GIVEN_BACK], 1000), tasks))
  {
    var s := Redeemed(cfg, [Earned(1), SPENT], 1000);
    SpentOnSecond();
    SecondReverseIs(item, cfg);
    ReverseStep(Shop(item), Sys(s, tasks), 2, cfg, [], Redeemed(cfg, [Earned(1), SPENT, GIVEN_BACK], 1000));
  }

  lemma SecondReverseIs(item: Line, cfg: Settings)
    requires ThousandEach(cfg, item) && cfg.ratioEur != 0.0
    ensures
      var s := Redeemed(cfg, [Earned(1), SPENT], 1000);
      OwnersExist(s, Shop(item).orders) &&
      Reverse(s, Shop(item).orders, 2, cfg, Shop(item).tiers, [], 0).0
        == Redeemed(cfg, [Earned(1), SPENT, GIVEN_BACK], 1000)
  {
    SpentOnSecond();
    GoldFromSecondLevel(cfg, 1000);
    assert PointsList([Earned(1), SPENT], []) == [];
    SpentGivenBack(cfg);
  }

  lemma SpentGivenBack(cfg: Settings)
    requires cfg.ratioEur != 0.0
    ensures Undo(Redeemed(cfg, [Earned(1), SPENT], 1000), CUSTOMER, 2, [], 0)
      == (Redeemed(cfg, [Earned(1), SPENT, GIVEN_BACK], 1000), 0)
  {
    SpentOnSecond();
    assert [Earned(1), SPENT] + [GIVEN_BACK] + [] == [Earned(1), SPENT, GIVEN_BACK];
    assert Customer(1000, Some(GOLD))[CUSTOMER := UserRow(1000, Some(GOLD))] == Customer(1000, Some(GOLD));
  }

  lemma LateAwardIs(item: Line, cfg: Settings, s: Store)
    requires ThousandEach(cfg, item) && cfg.ratioEur != 0.0 && s == Redeemed(cfg, [Earned(1), SPENT, GIVEN_BACK], 1000)
    ensures OwnersExist(s, Shop(item).orders)
    ensures Award(s, Shop(item).orders, 2, cfg, Shop(item).tiers, Some(GOLD), 0)
      == (Redeemed(cfg, [Earned(1), SPENT, GIVEN_BACK, Earned(2)], 2000), 1000)
  {
    SpentOnSecond();
    assert [Earned(1), SPENT] + [GIVEN_BACK] == s.ledger;
    ShopAward(s, item, 2, cfg, Some(GOLD), Some(GOLD));
    assert s.ledger + [Earned(2)] == [Earned(1), SPENT, GIVEN_BACK, Earned(2)] && s.announced + [] == s.announced;
    assert s.users[CUSTOMER := UserRow(2000, Some(GOLD))] == Customer(2000, Some(GOLD));
  }

  lemma LateAwardStep(item: Line, cfg: Settings, tasks: map<nat, Progress>)
    requires ThousandEach(cfg, item) && cfg.ratioEur != 0.0 && 2 in tasks && tasks[2] == Started(2)
    ensures Leads(Shop(item), Sys(Redeemed(cfg, [Earned(1), SPENT, GIVEN_BACK], 1000), tasks), RunAward(2, cfg, Some(GOLD), 0),
      Sys(Redeemed(cfg, [Earned(1), SPENT, GIVEN_BACK, Earned(2)], 2000), tasks[2 := Awarded(2, 1000)]))
  {
    var s := Redeemed(cfg, [Earned(1), SPENT, GIVEN_BACK], 1000);
    LateAwardIs(item, cfg, s);
    AwardStep(Shop(item), Sys(s, tasks), 2, cfg, Some(GOLD), Redeemed(cfg, [Earned(1), SPENT, GIVEN_BACK, Earned(2)], 2000));
  }

  function Paid(cfg: Settings): Sys
    requires cfg.ratioEur != 0.0
  {
    Sys(Redeemed(cfg, [Earned(1), SPENT], 1000), map[1 := Awarded(1, 1000)])
  }

  function KeptPoints(cfg: Settings): Sys
    requires cfg.ratioEur != 0.0
  {
    Sys(Redeemed(cfg, [Earned(1), SPENT, GIVEN_BACK, Earned(2)], 2000), map[1 := Awarded(1, 1000), 2 := Awarded(2, 1000)])
  }

  lemma PaidWithPoints(item: Line, cfg: Settings)
    requires ThousandEach(cfg, item) && cfg.ratioEur != 0.0
    ensures OwnersExist(Opening().store, Shop(item).orders) && OwnersExist(Paid(cfg).store, Shop(item).orders)
    ensures
      var acts := [
        Deliver(1, 1), RunAward(1, cfg, None, 0), RunRedeem(CUSTOMER, 500, "EUR", Discount(cfg), Some(2), cfg, 0)];
      Legal(Shop(item), Opening(), acts) && Run(Shop(item), Opening(), acts) == Paid(cfg)
  {
    var t1: map<nat, Progress> := map[1 := Started(1)];
    var t2 := t1[1 := Awarded(1, 1000)];
    Delivered(item, 1, 1, Opening());
    FirstAward(item, cfg, 1, 1, t1);
    RedeemStepIs(item, cfg, t2);
    assert t2 == Paid(cfg).tasks;
    RunOfThree(Shop(item), Opening(), Deliver(1, 1), Sys(Books([], 0, None, []), t1), RunAward(1, cfg, None, 0),
      Sys(Books([Earned(1)], 1000, Some(GOLD), [MADE_GOLD]), t2),
      RunRedeem(CUSTOMER, 500, "EUR", Discount(cfg), Some(2), cfg, 0), Paid(cfg));
  }

  lemma CancelledThenAwarded(item: Line, cfg: Settings)
    requires ThousandEach(cfg, item) && cfg.ratioEur != 0.0
    ensures OwnersExist(Paid(cfg).store, Shop(item).orders) && OwnersExist(KeptPoints(cfg).store, Shop(item).orders)
    ensures
      var acts := [RunReverse(2, cfg, [], 0), Deliver(2, 2), RunAward(2, cfg, Some(GOLD), 0)];
      Legal(Shop(item), Paid(cfg), acts) && Run(Shop(item), Paid(cfg), acts) == KeptPoints(cfg)
  {
    var t := Paid(cfg).tasks;
    var reversed := Sys(Redeemed(cfg, [Earned(1), SPENT, GIVEN_BACK], 1000), t);
    var loaded := reversed.(tasks := t[2 := Started(2)]);
    SecondReversed(item, cfg, t);
    Delivered(item, 2, 2, reversed);
    LateAwardStep(item, cfg, loaded.tasks);
    assert loaded.tasks[2 := Awarded(2, 1000)] == KeptPoints(cfg).tasks;
    RunOfThree(Shop(item), Paid(cfg), RunReverse(2, cfg, [], 0), reversed, Deliver(2, 2), loaded,
      RunAward(2, cfg, Some(GOLD), 0), KeptPoints(cfg));
  }

  /**
   * An order paid in part with points is cancelled before its award has run: the reversal gives the spent points
   * back, and its ADJUST row is all that later reversals look at. The late award pays the cancelled order, and no
   * continuation ever takes those thousand points of XP back.
   */
  lemma CancelledOrderKeepsPoints(item: Line, cfg: Settings, acts: seq<Action>)
    requires ThousandEach(cfg, item) && cfg.ratioEur != 0.0
    ensures OwnersExist(KeptPoints(cfg).store, Shop(item).orders)
    ensures Legal(Shop(item), KeptPoints(cfg), acts) ==>
      OrderXp(Run(Shop(item), KeptPoints(cfg), acts).store.ledger, 2) == 1000
  {
    CancelledThenAwarded(item, cfg);
    var l := KeptPoints(cfg).store.ledger;
    assert Refers(l[2], 2, Adjust) && Refers(l[3], 2, Earn);
    KeptXp();
    if Legal(Shop(item), KeptPoints(cfg), acts) {
      SettledForGood(Shop(item), KeptPoints(cfg), acts, 2);
    }
  }

  lemma KeptXp()
    ensures OrderXp([Earned(1), SPENT, GIVEN_BACK, Earned(2)], 2) == 1000
  {
    SumAppend([], Earned(1), XpOfOrder(2));
    SumAppend([Earned(1)], SPENT, XpOfOrder(2));
    SumAppend([Earned(1), SPENT], GIVEN_BACK, XpOfOrder(2));
    SumAppend([Earned(1), SPENT, GIVEN_BACK], Earned(2), XpOfOrder(2));
    assert [] + [Earned(1)] == [Earned(1)] && [Earned(1)] + [SPENT] == [Earned(1), SPENT];
    assert [Earned(1), SPENT] + [GIVEN_BACK] == [Earned(1), SPENT, GIVEN_BACK];
    assert [Earned(1), SPENT, GIVEN_BACK] + [Earned(2)] == [Earned(1), SPENT, GIVEN_BACK, Earned(2)];
  }
}
