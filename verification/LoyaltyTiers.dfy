/** Levels, tiers and tier announcements. */
module LoyaltyTiers {
  import opened Wrappers
  import opened Folds
  import opened LoyaltyData
  import opened LoyaltySteps
  import opened LoyaltyReversal

  // ----- levels -----

  lemma LevelReached(cfg: Settings, xp: int, level: int)
    requires cfg.xpPerLevel > 0
    ensures UserLevel(cfg, xp) >= level <==> xp >= (level - 1) * cfg.xpPerLevel
  {
    var per := cfg.xpPerLevel;
    var q := xp / per;
    assert q * per <= xp < (q + 1) * per by {
      assert xp == q * per + xp % per;
    }
    if q >= level - 1 {
      MulMonotone(level - 1, q, per);
    } else {
      MulMonotone(q + 1, level - 1, per);
    }
  }

  lemma MulMonotone(a: int, b: int, c: int)
    requires a <= b && c >= 0
    ensures a * c <= b * c
  {
    assert b * c - a * c == (b - a) * c;
  }

  lemma LevelMonotone(cfg: Settings, xp: int, more: int)
    requires xp <= more
    ensures UserLevel(cfg, xp) <= UserLevel(cfg, more)
  {
    if cfg.xpPerLevel > 0 {
      LevelReached(cfg, xp, UserLevel(cfg, xp));
      LevelReached(cfg, more, UserLevel(cfg, xp));
    }
  }

  /** More XP never means a lower tier. */
  lemma TierMonotone(cfg: Settings, tiers: seq<Tier>, xp: int, more: int)
    requires xp <= more
    ensures Rank(TierFor(cfg, tiers, xp)) <= Rank(TierFor(cfg, tiers, more))
  {
    LevelMonotone(cfg, xp, more);
  }

  /** Ranks tell tiers apart. */
  lemma RankInjective(tiers: seq<Tier>, a: Option<Tier>, b: Option<Tier>)
    requires DistinctLevels(tiers) && (a.Some? ==> a.value in tiers) && (b.Some? ==> b.value in tiers)
    ensures Rank(a) == Rank(b) <==> a == b
  {
  }

  // ----- points to the next tier -----

  /** The distance the summary reports: it falls back to 1000 XP a level for a non-positive setting. */
  function PointsToNextTier(cfg: Settings, tiers: seq<Tier>, xp: int): Option<int> {
    var next := NextTier(tiers, TierFor(cfg, tiers, xp));
    if next.None? then None else
      var per := if cfg.xpPerLevel <= 0 then 1000 else cfg.xpPerLevel;
      Some(Max(0, (next.value.requiredLevel - 1) * per - xp))
  }

  /** The next tier lies above the current level. */
  lemma NextTierAboveLevel(cfg: Settings, tiers: seq<Tier>, xp: int)
    ensures
      var next := NextTier(tiers, TierFor(cfg, tiers, xp));
      next.Some? ==> next.value.requiredLevel > UserLevel(cfg, xp)
  {
  }

  /** XP at the start of a level is at that level. */
  lemma LevelStart(cfg: Settings, level: int)
    requires cfg.xpPerLevel > 0
    ensures UserLevel(cfg, (level - 1) * cfg.xpPerLevel) == level
  {
    var xp := (level - 1) * cfg.xpPerLevel;
    LevelReached(cfg, xp, level);
    LevelReached(cfg, xp, level + 1);
    assert (level + 1 - 1) * cfg.xpPerLevel == xp + cfg.xpPerLevel;
  }

  /**
   * The reported distance is exact: it is positive, earning it brings the user to the next tier and to no
   * other, and any total below it falls short of that tier's level.
   */
  lemma PointsToNextTierExact(cfg: Settings, tiers: seq<Tier>, xp: int)
    requires cfg.xpPerLevel > 0 && DistinctLevels(tiers) && PointsToNextTier(cfg, tiers, xp).Some?
    ensures
      var next := NextTier(tiers, TierFor(cfg, tiers, xp));
      var n := PointsToNextTier(cfg, tiers, xp).value;
      n > 0 && TierFor(cfg, tiers, xp + n) == next &&
      forall total :: UserLevel(cfg, total) >= next.value.requiredLevel <==> total >= xp + n
  {
    var next := NextTier(tiers, TierFor(cfg, tiers, xp));
    var level := next.value.requiredLevel;
    NextTierAboveLevel(cfg, tiers, xp);
    LevelReached(cfg, xp, level);
    LevelStart(cfg, level);
    forall total ensures UserLevel(cfg, total) >= level <==> total >= (level - 1) * cfg.xpPerLevel {
      LevelReached(cfg, total, level);
    }
  }

  /**
   * Some amount of XP reaches the next tier exactly when the XP-per-level setting is positive, and then the
   * reported distance does.
   */
  lemma NextTierReachable(cfg: Settings, tiers: seq<Tier>, xp: int)
    requires DistinctLevels(tiers) && PointsToNextTier(cfg, tiers, xp).Some?
    ensures
      var level := NextTier(tiers, TierFor(cfg, tiers, xp)).value.requiredLevel;
      ((exists total :: total >= xp && UserLevel(cfg, total) >= level) <==> cfg.xpPerLevel > 0) &&
      (UserLevel(cfg, xp + PointsToNextTier(cfg, tiers, xp).value) >= level <==> cfg.xpPerLevel > 0)
  {
    if cfg.xpPerLevel > 0 {
      PointsToNextTierExact(cfg, tiers, xp);
      var total := xp + PointsToNextTier(cfg, tiers, xp).value;
      assert total >= xp && UserLevel(cfg, total) >= NextTier(tiers, TierFor(cfg, tiers, xp)).value.requiredLevel;
    } else {
      NextTierAboveLevel(cfg, tiers, xp);
    }
  }

  /** With the setting at zero, 1000 points are reported for the second level, and no XP ever leads there. */
  lemma ZeroPerLevelPromisesInVain(total: int)
    ensures
      var cfg := THOUSAND_A_LEVEL.(xpPerLevel := 0);
      PointsToNextTier(cfg, [GOLD], 0) == Some(1000) && TierFor(cfg, [GOLD], total).None?
  {
    assert TierForLevel([GOLD], 1).None?;
    assert NextTier([GOLD], None) == Some(GOLD);
  }

  // ----- one recalculation -----

  predicate TierAgrees(s: Store, u: nat, cfg: Settings, tiers: seq<Tier>)
    requires u in s.users
  {
    s.users[u].tier == TierFor(cfg, tiers, s.users[u].xp)
  }

  /**
   * A recalculation leaves the stored tier right exactly when the in-memory tier differs from the due one
   * (so that it is saved) or the stored tier was right already. With a stale snapshot neither need hold.
   */
  lemma RecalculateAgreesIff(s: Store, u: nat, seen: Option<Tier>, cfg: Settings, tiers: seq<Tier>)
    requires u in s.users
    ensures TierAgrees(Recalculate(s, u, seen, cfg, tiers), u, cfg, tiers)
      <==> seen != TierFor(cfg, tiers, s.users[u].xp) || TierAgrees(s, u, cfg, tiers)
  {
  }

  /** A user that is read under the lock always ends with the right tier. */
  lemma RecalculateUnderLock(s: Store, u: nat, cfg: Settings, tiers: seq<Tier>)
    requires u in s.users
    ensures TierAgrees(Recalculate(s, u, s.users[u].tier, cfg, tiers), u, cfg, tiers)
  {
    RecalculateAgreesIff(s, u, s.users[u].tier, cfg, tiers);
  }

  /** What a recalculation announces: nothing when the stored tier does not change, and otherwise the change. */
  lemma RecalculateAnnounces(s: Store, u: nat, seen: Option<Tier>, cfg: Settings, tiers: seq<Tier>)
    requires u in s.users
    ensures
      var after := Recalculate(s, u, seen, cfg, tiers);
      after.users[u].xp == s.users[u].xp &&
      after.announced == s.announced +
        if after.users[u].tier == s.users[u].tier then []
        else [TierChange(u, s.users[u].tier, after.users[u].tier,
                         DirectionOf(s.users[u].tier, after.users[u].tier))]
  {
    assert s.announced + [] == s.announced;
  }

  // ----- award and reversal in serialized runs -----

  /** The stored tier agrees with the stored XP, or the user never had a tier. */
  predicate TierSettled(s: Store, u: nat, cfg: Settings, tiers: seq<Tier>)
    requires u in s.users
  {
    TierAgrees(s, u, cfg, tiers) || s.users[u].tier.None?
  }

  ghost predicate CallAwards(s: Store, orders: map<nat, OrderRow>, o: nat, cfg: Settings) {
    cfg.enabled && o in orders && orders[o].user.Some? && !HasRow(s.ledger, o, Earn)
  }

  /** The tier an order's points will qualify for, as it can be worked out before the award. */
  function DueAfterAward(
    s: Store, u: nat, o: nat, items: seq<Line>, cfg: Settings, tiers: seq<Tier>, seen: Option<Tier>, now: int
  ): Option<Tier>
    requires u in s.users
  {
    TierFor(cfg, tiers, s.users[u].xp + Sum(AwardRows(u, o, items, cfg, Multiplier(seen), now), PointsOf(u)))
  }

  /** An award leaves the right tier exactly when its snapshot is not already the due tier, or the stored tier is. */
  lemma AwardAgreesIff(
    s: Store, orders: map<nat, OrderRow>, o: nat, cfg: Settings, tiers: seq<Tier>, seen: Option<Tier>, now: int
  )
    requires OwnersExist(s, orders) && CallAwards(s, orders, o, cfg)
    ensures
      var u := orders[o].user.value;
      var after := Award(s, orders, o, cfg, tiers, seen, now).0;
      var due := DueAfterAward(s, u, o, orders[o].items, cfg, tiers, seen, now);
      TierFor(cfg, tiers, after.users[u].xp) == due &&
      (TierAgrees(after, u, cfg, tiers) <==> seen != due || s.users[u].tier == due)
  {
    var u := orders[o].user.value;
    var paid := Grant(s, u, AwardRows(u, o, orders[o].items, cfg, Multiplier(seen), now));
    RecalculateAgreesIff(paid, u, seen, cfg, tiers);
  }

  const GOLD := Tier(3, 2, 1.0)
  const THOUSAND_A_LEVEL := Settings(true, 1.0, FinalPrice, false, 1000, false, 0, 100.0, 100.0, 0)
  const THOUSAND_POINTS := Line(Product(0.0, 0.0, 0.0, 0.0, 0.0, 1000), 1)

  lemma OneItemTotal(u: nat, o: nat, item: Line, cfg: Settings, multiplier: real, now: int)
    ensures AwardRows(u, o, [item], cfg, multiplier, now)
      == [Tx(u, ItemPoints(cfg, item, multiplier), Earn, Some(o), None, now)]
    ensures Sum(AwardRows(u, o, [item], cfg, multiplier, now), PointsOf(u)) == ItemPoints(cfg, item, multiplier)
  {
    var rows := AwardRows(u, o, [item], cfg, multiplier, now);
    SumAppend([], rows[0], PointsOf(u));
    assert [] + [rows[0]] == rows;
  }

  /** An award with an up-to-date snapshot leaves the right tier and announces at most one change, upwards. */
  lemma AwardMovesUp(
    s: Store, orders: map<nat, OrderRow>, o: nat, cfg: Settings, tiers: seq<Tier>, now: int
  )
    requires OwnersExist(s, orders) && DistinctLevels(tiers) && CallAwards(s, orders, o, cfg)
    requires TierSettled(s, orders[o].user.value, cfg, tiers)
    requires
      var u := orders[o].user.value;
      Sum(AwardRows(u, o, orders[o].items, cfg, Multiplier(s.users[u].tier), now), PointsOf(u)) >= 0
    ensures
      var u := orders[o].user.value;
      var after := Award(s, orders, o, cfg, tiers, s.users[u].tier, now).0;
      TierAgrees(after, u, cfg, tiers) &&
      after.announced == s.announced +
        if after.users[u].tier == s.users[u].tier then []
        else [TierChange(u, s.users[u].tier, after.users[u].tier, Up)]
  {
    var u := orders[o].user.value;
    var seen := s.users[u].tier;
    var rows := AwardRows(u, o, orders[o].items, cfg, Multiplier(seen), now);
    var paid := Grant(s, u, rows);
    RecalculateAgreesIff(paid, u, seen, cfg, tiers);
    RecalculateAnnounces(paid, u, seen, cfg, tiers);
    TierMonotone(cfg, tiers, s.users[u].xp, paid.users[u].xp);
    var due := TierFor(cfg, tiers, paid.users[u].xp);
    if TierAgrees(s, u, cfg, tiers) {
      RankInjective(tiers, seen, due);
    }
  }

  /** A reversal that takes XP from a user in the right tier leaves the right tier and never announces "up". */
  lemma ReversalMovesDown(
    s: Store, orders: map<nat, OrderRow>, o: nat, cfg: Settings, tiers: seq<Tier>, listing: seq<nat>, now: int
  )
    requires OwnersExist(s, orders) && DistinctLevels(tiers) && CallReverses(s, orders, o, cfg)
    requires Known(s.ledger, listing) && TierAgrees(s, orders[o].user.value, cfg, tiers)
    requires s.users[orders[o].user.value].xp >= 0 && Reverse(s, orders, o, cfg, tiers, listing, now).1 >= 0
    ensures
      var u := orders[o].user.value;
      var after := Reverse(s, orders, o, cfg, tiers, listing, now).0;
      TierAgrees(after, u, cfg, tiers) &&
      after.announced == s.announced +
        if after.users[u].tier == s.users[u].tier then []
        else [TierChange(u, s.users[u].tier, after.users[u].tier, Down)]
  {
    var u := orders[o].user.value;
    var row := s.users[u];
    var (after, removed) := Reverse(s, orders, o, cfg, tiers, listing, now);
    var credited := Restored(s.ledger, u, o, now);
    var rows := ReversalRows(u, o, PointsList(s.ledger, listing), Balance(credited, u), now);
    var debited := s.(ledger := credited + rows, users := s.users[u := row.(xp := Max(0, row.xp - removed))]);
    RecalculateUnderLock(debited, u, cfg, tiers);
    RecalculateAnnounces(debited, u, row.tier, cfg, tiers);
    TierMonotone(cfg, tiers, debited.users[u].xp, row.xp);
    RankInjective(tiers, row.tier, TierFor(cfg, tiers, debited.users[u].xp));
  }

  /** A reversal settles the tier whatever it was before: its user is read under the lock. */
  lemma ReversalSettlesTier(
    s: Store, orders: map<nat, OrderRow>, o: nat, cfg: Settings, tiers: seq<Tier>, listing: seq<nat>, now: int
  )
    requires OwnersExist(s, orders) && CallReverses(s, orders, o, cfg) && Known(s.ledger, listing)
    ensures TierAgrees(Reverse(s, orders, o, cfg, tiers, listing, now).0, orders[o].user.value, cfg, tiers)
  {
    var u := orders[o].user.value;
    var row := s.users[u];
    var removed := Reverse(s, orders, o, cfg, tiers, listing, now).1;
    var credited := Restored(s.ledger, u, o, now);
    var rows := ReversalRows(u, o, PointsList(s.ledger, listing), Balance(credited, u), now);
    RecalculateUnderLock(
      s.(ledger := credited + rows, users := s.users[u := row.(xp := Max(0, row.xp - removed))]), u, cfg, tiers);
  }
}
