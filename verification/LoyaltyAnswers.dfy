/**
 * What each operation of the loyalty service answers, said with the fields of the rows, the settings and the
 * order alone, so that it can be read without the step functions.
 */
module LoyaltyAnswers {
  import opened Wrappers
  import opened Folds
  import opened LoyaltyData
  import opened LoyaltySteps
  import opened LoyaltyExpiry
  import opened LoyaltyTiers

  // ----- balance -----

  /** The balance starts at zero, and each row of the user moves it by its points. */
  lemma BalanceAddsUp(ledger: seq<Tx>, t: Tx, u: nat)
    ensures Balance([], u) == 0
    ensures Balance(ledger + [t], u) == Balance(ledger, u) + if t.user == u then t.points else 0
  {
    SumAppend(ledger, t, PointsOf(u));
  }

  // ----- award -----

  /** The greatest integer not above a number. */
  predicate IsFloor(n: int, x: real) {
    n as real <= x < n as real + 1.0
  }

  /** The amount that points are computed from, for each of the four settings. */
  predicate IsPrice(basis: PriceBasis, p: Product, amount: real) {
    (basis == ExclVatNoDiscount ==> amount == p.price) &&
    (basis == ExclVatWithDiscount ==> amount == p.price - p.discount) &&
    (basis == InclVatNoDiscount ==> amount == p.price + p.vat) &&
    (basis == FinalPrice ==> amount == p.finalPrice)
  }

  /** The tier's multiplier, where the setting is on and it is above one. */
  predicate IsFactor(cfg: Settings, seen: Option<Tier>, m: real) {
    if cfg.tierMultiplierEnabled && seen.Some? && seen.value.multiplier > 1.0 then m == seen.value.multiplier else m == 1.0
  }

  lemma LinePays(cfg: Settings, line: Line, seen: Option<Tier>, amount: real, m: real)
    requires IsPrice(cfg.basis, line.product, amount) && IsFactor(cfg, seen, m)
    ensures
      var q := line.quantity;
      IsFloor(ItemPoints(cfg, line, Multiplier(seen)) - line.product.points * q,
              amount * cfg.factor * line.product.coefficient * q as real * m)
  {
    var q := line.quantity as real;
    var base := amount * cfg.factor * line.product.coefficient;
    assert base * m * q == base * q * m;
  }

  /** No EARN row refers to the order. */
  predicate NotEarned(ledger: seq<Tx>, o: nat) {
    forall i :: 0 <= i < |ledger| ==> !(ledger[i].kind == Earn && ledger[i].order == Some(o))
  }

  /** The item's own points, and the whole points of price, factor, coefficient, quantity and tier multiplier. */
  ghost predicate Pays(points: int, cfg: Settings, item: Line, seen: Option<Tier>) {
    forall amount, m :: IsPrice(cfg.basis, item.product, amount) && IsFactor(cfg, seen, m) ==>
      IsFloor(points - item.product.points * item.quantity,
              amount * cfg.factor * item.product.coefficient * item.quantity as real * m)
  }

  /** That says how many points: there is always a price and a factor, and only one number of points fits. */
  lemma PaysOnce(p: int, q: int, cfg: Settings, item: Line, seen: Option<Tier>)
    requires Pays(p, cfg, item, seen) && Pays(q, cfg, item, seen)
    ensures p == q
  {
    var amount := match cfg.basis
      case ExclVatNoDiscount => item.product.price
      case ExclVatWithDiscount => item.product.price - item.product.discount
      case InclVatNoDiscount => item.product.price + item.product.vat
      case FinalPrice => item.product.finalPrice;
    var m := if cfg.tierMultiplierEnabled && seen.Some? && seen.value.multiplier > 1.0 then seen.value.multiplier else 1.0;
    assert IsPrice(cfg.basis, item.product, amount) && IsFactor(cfg, seen, m);
    var own := item.product.points * item.quantity;
    var x := amount * cfg.factor * item.product.coefficient * item.quantity as real * m;
    assert IsFloor(p - own, x) && IsFloor(q - own, x);
  }

  lemma RowsPay(u: nat, o: nat, items: seq<Line>, cfg: Settings, seen: Option<Tier>, now: int)
    ensures
      var rows := AwardRows(u, o, items, cfg, Multiplier(seen), now);
      |rows| == |items| && forall k :: 0 <= k < |items| ==>
        rows[k] == Tx(u, rows[k].points, Earn, Some(o), None, now) && Pays(rows[k].points, cfg, items[k], seen)
  {
    var rows := AwardRows(u, o, items, cfg, Multiplier(seen), now);
    forall k | 0 <= k < |items|
      ensures rows[k] == Tx(u, rows[k].points, Earn, Some(o), None, now) && Pays(rows[k].points, cfg, items[k], seen)
    {
      assert rows[k] == Tx(u, ItemPoints(cfg, items[k], Multiplier(seen)), Earn, Some(o), None, now);
      ItemPays(cfg, items[k], seen);
    }
  }

  lemma ItemPays(cfg: Settings, item: Line, seen: Option<Tier>)
    ensures Pays(ItemPoints(cfg, item, Multiplier(seen)), cfg, item, seen)
  {
    forall amount, m | IsPrice(cfg.basis, item.product, amount) && IsFactor(cfg, seen, m)
      ensures IsFloor(ItemPoints(cfg, item, Multiplier(seen)) - item.product.points * item.quantity,
                      amount * cfg.factor * item.product.coefficient * item.quantity as real * m)
    {
      LinePays(cfg, item, seen, amount, m);
    }
  }

  /**
   * What an award writes: one EARN row for each item, in order, with what the item pays. The user's XP grows by
   * the sum of the points, which is the answer; nobody else's does.
   */
  lemma AwardPays(
    s: Store, orders: map<nat, OrderRow>, o: nat, cfg: Settings, tiers: seq<Tier>, seen: Option<Tier>, now: int
  )
    requires OwnersExist(s, orders) && cfg.enabled && o in orders && orders[o].user.Some? && NotEarned(s.ledger, o)
    ensures
      var items := orders[o].items;
      var after := Award(s, orders, o, cfg, tiers, seen, now).0;
      s.ledger <= after.ledger && |after.ledger| == |s.ledger| + |items| &&
      forall k :: 0 <= k < |items| ==>
        var row := after.ledger[|s.ledger| + k];
        row == Tx(orders[o].user.value, row.points, Earn, Some(o), None, now) && Pays(row.points, cfg, items[k], seen)
    ensures
      var u := orders[o].user.value;
      var (after, total) := Award(s, orders, o, cfg, tiers, seen, now);
      total == Sum(after.ledger[|s.ledger|..], (t: Tx) => t.points) &&
      after.users.Keys == s.users.Keys && after.users[u].xp == s.users[u].xp + total &&
      forall v :: v in s.users && v != u ==> after.users[v] == s.users[v]
  {
    var u := orders[o].user.value;
    assert !HasRow(s.ledger, o, Earn);
    var rows := AwardRows(u, o, orders[o].items, cfg, Multiplier(seen), now);
    AwardAppends(s, orders, o, cfg, tiers, seen, now);
    RowsPay(u, o, orders[o].items, cfg, seen, now);
    var after := Award(s, orders, o, cfg, tiers, seen, now).0;
    assert after.ledger[|s.ledger|..] == rows;
    SumCongruent(rows, PointsOf(u), (t: Tx) => t.points);
    forall k | 0 <= k < |rows| ensures after.ledger[|s.ledger| + k] == rows[k] {}
  }

  lemma AwardAppends(
    s: Store, orders: map<nat, OrderRow>, o: nat, cfg: Settings, tiers: seq<Tier>, seen: Option<Tier>, now: int
  )
    requires OwnersExist(s, orders) && CallAwards(s, orders, o, cfg)
    ensures
      var u := orders[o].user.value;
      var rows := AwardRows(u, o, orders[o].items, cfg, Multiplier(seen), now);
      var (after, total) := Award(s, orders, o, cfg, tiers, seen, now);
      after.ledger == s.ledger + rows && total == Sum(rows, PointsOf(u)) && after.users.Keys == s.users.Keys &&
      after.users[u].xp == s.users[u].xp + total && forall v :: v in s.users && v != u ==> after.users[v] == s.users[v]
  {
  }

  /** In every other case an award changes nothing and answers zero. */
  lemma AwardRefused(
    s: Store, orders: map<nat, OrderRow>, o: nat, cfg: Settings, tiers: seq<Tier>, seen: Option<Tier>, now: int
  )
    requires OwnersExist(s, orders)
    requires !cfg.enabled || o !in orders || orders[o].user.None? || !NotEarned(s.ledger, o)
    ensures Award(s, orders, o, cfg, tiers, seen, now) == (s, 0)
  {
    if !NotEarned(s.ledger, o) {
      var i :| 0 <= i < |s.ledger| && s.ledger[i].kind == Earn && s.ledger[i].order == Some(o);
      assert Refers(s.ledger[i], o, Earn);
    }
  }

  // ----- redemption -----

  /** A REDEEM row refers to the order. */
  predicate AlreadySpentOn(ledger: seq<Tx>, o: nat) {
    exists i :: 0 <= i < |ledger| && ledger[i].kind == Redeem && ledger[i].order == Some(o)
  }

  lemma SpentOnIff(ledger: seq<Tx>, o: nat)
    ensures AlreadySpentOn(ledger, o) <==> HasRow(ledger, o, Redeem)
  {
    if i :| 0 <= i < |ledger| && ledger[i].kind == Redeem && ledger[i].order == Some(o) {
      assert Refers(ledger[i], o, Redeem);
    }
    if i :| 0 <= i < |ledger| && Refers(ledger[i], o, Redeem) {
      assert ledger[i].kind == Redeem && ledger[i].order == Some(o);
    }
  }

  /** Points are worth at most the allowed discount at this ratio. */
  predicate Affordable(amount: int, ratio: real, maxDiscount: real) {
    ratio != 0.0 && amount as real / ratio <= maxDiscount
  }

  /**
   * A redemption is granted if and only if the system is on, the amount is positive and within the balance, the
   * currency is one of the two, the order has none yet, and the discount is within the maximum.
   */
  lemma RedeemGrantedIff(
    s: Store, u: nat, amount: int, currency: string, maxDiscount: real, on: Option<nat>, cfg: Settings, now: int
  )
    ensures RedeemStep(s, u, amount, currency, maxDiscount, on, cfg, now).1.Ok? <==>
      cfg.enabled && 0 < amount <= Balance(s.ledger, u) &&
      (on.Some? ==> !AlreadySpentOn(s.ledger, on.value)) &&
      ((currency == "EUR" && Affordable(amount, cfg.ratioEur, maxDiscount)) ||
       (currency == "USD" && Affordable(amount, cfg.ratioUsd, maxDiscount)))
  {
    if on.Some? { SpentOnIff(s.ledger, on.value); }
    assert "EUR"[0] == 'E' && "USD"[0] == 'U';
  }

  /** What a granted redemption does. The discount times the currency's ratio is the amount. */
  lemma RedeemGranted(
    s: Store, u: nat, amount: int, currency: string, maxDiscount: real, on: Option<nat>, cfg: Settings, now: int
  )
    requires RedeemStep(s, u, amount, currency, maxDiscount, on, cfg, now).1.Ok?
    ensures
      var (after, r) := RedeemStep(s, u, amount, currency, maxDiscount, on, cfg, now);
      (currency == "EUR" ==> r.value * cfg.ratioEur == amount as real) &&
      (currency == "USD" ==> r.value * cfg.ratioUsd == amount as real) &&
      after.ledger == s.ledger + [Tx(u, -amount, Redeem, on, None, now)] &&
      after.users == s.users && after.announced == s.announced &&
      after.receipts == if on.Some? then s.receipts[on.value := Receipt(amount, r.value)] else s.receipts
  {
    assert "EUR"[0] == 'E' && "USD"[0] == 'U';
  }

  /** The answer to a refused redemption names the first thing that is wrong, and nothing changes. */
  lemma RedeemRefused(
    s: Store, u: nat, amount: int, currency: string, maxDiscount: real, on: Option<nat>, cfg: Settings, now: int
  )
    ensures
      var (after, r) := RedeemStep(s, u, amount, currency, maxDiscount, on, cfg, now);
      var balance := Balance(s.ledger, u);
      var supported := currency == "EUR" || currency == "USD";
      var asked := cfg.enabled && amount > 0 && supported;
      var open := asked && amount <= balance && (on.Some? ==> !AlreadySpentOn(s.ledger, on.value));
      (r.Err? ==> after == s) &&
      (r == Err(Disabled) <==> !cfg.enabled) &&
      (r == Err(NotPositive) <==> cfg.enabled && amount <= 0) &&
      (r == Err(UnsupportedCurrency) <==> cfg.enabled && amount > 0 && !supported) &&
      (r == Err(Insufficient(balance)) <==> asked && amount > balance) &&
      (r == Err(AlreadyRedeemed) <==> asked && amount <= balance && on.Some? && AlreadySpentOn(s.ledger, on.value)) &&
      (r == Err(ZeroRatio) <==> open && (if currency == "EUR" then cfg.ratioEur else cfg.ratioUsd) == 0.0)
  {
    if on.Some? { SpentOnIff(s.ledger, on.value); }
  }

  // ----- bonus -----

  /** The bonus is paid exactly when it is switched on and the user has no EARN row for anything but this order. */
  lemma BonusPaidExactly(s: Store, u: nat, o: nat, cfg: Settings, now: int)
    ensures
      var due := cfg.bonusEnabled &&
        forall i :: 0 <= i < |s.ledger| && s.ledger[i].user == u && s.ledger[i].kind == Earn ==> s.ledger[i].order == Some(o);
      GiveBonus(s, u, o, cfg, now) ==
        if due then (s.(ledger := s.ledger + [Tx(u, cfg.bonusPoints, Bonus, Some(o), None, now)]), cfg.bonusPoints)
        else (s, 0)
  {
  }

  // ----- levels and tiers -----

  /** The XP from which a tier is open; with a non-positive setting everybody is on the first level. */
  predicate Open(cfg: Settings, t: Tier, xp: int) {
    if cfg.xpPerLevel > 0 then xp >= (t.requiredLevel - 1) * cfg.xpPerLevel else t.requiredLevel <= 1
  }

  /** The tier due is the highest open one, and there is none exactly when none is open. */
  lemma TierDue(cfg: Settings, tiers: seq<Tier>, xp: int)
    ensures
      var due := TierFor(cfg, tiers, xp);
      (due.None? <==> forall t :: t in tiers ==> !Open(cfg, t, xp)) &&
      (due.Some? ==> due.value in tiers && Open(cfg, due.value, xp)) &&
      (due.Some? ==> forall t :: t in tiers && Open(cfg, t, xp) ==> t.requiredLevel <= due.value.requiredLevel)
  {
    forall t | t in tiers ensures Open(cfg, t, xp) <==> t.requiredLevel <= UserLevel(cfg, xp) {
      if cfg.xpPerLevel > 0 { LevelReached(cfg, xp, t.requiredLevel); }
    }
  }

  /** The summary names no distance exactly when every tier is open already. */
  lemma NoDistanceIff(cfg: Settings, tiers: seq<Tier>, xp: int)
    ensures PointsToNextTier(cfg, tiers, xp).None? <==> forall t :: t in tiers ==> Open(cfg, t, xp)
  {
    TierDue(cfg, tiers, xp);
    forall t | t in tiers ensures Open(cfg, t, xp) <==> t.requiredLevel <= UserLevel(cfg, xp) {
      if cfg.xpPerLevel > 0 { LevelReached(cfg, xp, t.requiredLevel); }
    }
    var due := TierFor(cfg, tiers, xp);
    var next := NextTier(tiers, due);
    if next.None? {
      forall t | t in tiers ensures Open(cfg, t, xp) {
        assert !Above(t, due);
      }
    } else {
      NextTierAboveLevel(cfg, tiers, xp);
    }
  }

  // ----- expiry -----

  /** An EXPIRE row names the transaction. */
  predicate ExpiredAlready(ledger: seq<Tx>, id: nat) {
    exists i :: 0 <= i < |ledger| && ledger[i].kind == Expire && ledger[i].marks == Some(id)
  }

  /**
   * Which transactions a pass expires: the positive EARN rows older than the configured days that no EXPIRE row
   * names yet, each once, and no others, whatever the other writers append in between.
   */
  lemma PassExpiresExactly(
    before: seq<Tx>, days: int, listing: seq<nat>, users: seq<nat>, meanwhile: nat -> seq<Tx>, now: int, id: nat
  )
    requires FreshListing(before, now - days * 86400, listing) && id < |before|
    requires NoRepeats(users) && Known(before, listing)
    requires forall k :: 0 <= k < |listing| ==> before[listing[k]].user in users
    ensures
      var t := before[id];
      var due := t.kind == Earn && t.points > 0 && now - t.at > days * 86400 && !ExpiredAlready(before, id);
      Markers(PassLedger(before, listing, users, meanwhile, now), id)
        == Markers(before, id) + ForeignMarks(meanwhile, |users|, id) + if due then 1 else 0
  {
    PassLedgerMarks(before, listing, users, meanwhile, now, id);
    assert id in listing <==> Expirable(before, now - days * 86400, id);
  }
}
