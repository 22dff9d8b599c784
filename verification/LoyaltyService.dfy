/** The loyalty service as an object over its tables: every writer is one locked section. */
module LoyaltyService {
  import opened Wrappers
  import opened Folds
  import opened LoyaltyData
  import opened LoyaltySteps
  import opened LoyaltyExpiry

  const SECONDS_PER_DAY := 86400

  class LoyaltyStore {
    var ledger: seq<Tx>
    var users: map<nat, UserRow>
    var receipts: map<nat, Receipt>
    var announced: seq<TierChange>

    ghost function Tables(): Store
      reads this
    {
      Store(ledger, users, receipts, announced)
    }

    constructor (accounts: set<nat>)
      ensures Tables() == Store([], map u | u in accounts :: UserRow(0, None), map[], [])
    {
      ledger, users, receipts, announced := [], map u | u in accounts :: UserRow(0, None), map[], [];
    }

    method GetBalance(u: nat) returns (balance: int)
      ensures balance == Balance(ledger, u)
    {
      balance := 0;
      for i := 0 to |ledger|
        invariant balance == Balance(ledger[..i], u)
      {
        assert ledger[..i + 1][..i] == ledger[..i];
        if ledger[i].user == u {
          balance := balance + ledger[i].points;
        }
      }
      assert ledger[..|ledger|] == ledger;
    }

    method RecalculateTier(u: nat, seen: Option<Tier>, cfg: Settings, tiers: seq<Tier>)
      requires u in users
      modifies this`users, this`announced
      ensures Tables() == Recalculate(old(Tables()), u, seen, cfg, tiers)
    {
      var due := TierFor(cfg, tiers, users[u].xp);
      if seen != due {
        var before := users[u].tier;
        users := users[u := users[u].(tier := due)];
        if before != due {
          announced := announced + [TierChange(u, before, due, DirectionOf(before, due))];
        }
      }
    }

    /** `seen` is the tier of the user snapshot that was loaded with the order, before the lock. */
    method AwardOrderPoints(
      orders: map<nat, OrderRow>, o: nat, cfg: Settings, tiers: seq<Tier>, seen: Option<Tier>, now: int
    ) returns (total: int)
      requires OwnersExist(Tables(), orders)
      modifies this
      ensures (Tables(), total) == Award(old(Tables()), orders, o, cfg, tiers, seen, now)
    {
      if !cfg.enabled || o !in orders || orders[o].user.None? {
        return 0;
      }
      var u := orders[o].user.value;
      if HasRow(ledger, o, Earn) {
        return 0;
      }
      var multiplier := 1.0;
      if seen.Some? {
        multiplier := seen.value.multiplier;
      }
      var rows;
      rows, total := BuildEarnRows(u, o, orders[o].items, cfg, multiplier, now);
      if rows != [] {
        ledger := ledger + rows;
      }
      users := users[u := users[u].(xp := users[u].xp + total)];
      assert Tables() == Grant(old(Tables()), u, rows);
      RecalculateTier(u, seen, cfg, tiers);
    }

    method BuildEarnRows(u: nat, o: nat, items: seq<Line>, cfg: Settings, multiplier: real, now: int)
      returns (rows: seq<Tx>, total: int)
      ensures rows == AwardRows(u, o, items, cfg, multiplier, now) && total == Sum(rows, PointsOf(u))
    {
      rows := [];
      ghost var due := AwardRows(u, o, items, cfg, multiplier, now);
      total := 0;
      for i := 0 to |items|
        invariant rows == due[..i] && total == Sum(rows, PointsOf(u))
      {
        var points := ItemPoints(cfg, items[i], multiplier);
        SumAppend(rows, due[i], PointsOf(u));
        rows := rows + [Tx(u, points, Earn, Some(o), None, now)];
        total := total + points;
      }
    }

    /** The clamping loop of a reversal. */
    method ReverseEarned(u: nat, o: nat, earned: seq<int>, start: int, now: int) returns (reversed: int)
      modifies this`ledger
      ensures ledger == old(ledger) + ReversalRows(u, o, earned, start, now)
      ensures reversed == -Sum(ReversalRows(u, o, earned, start, now), PointsOf(u))
    {
      reversed := 0;
      var balance := start;
      assert earned[..0] == [];
      for i := 0 to |earned|
        invariant TakenSoFar(old(ledger), ledger, u, o, earned[..i], start, now, balance, reversed)
      {
        ghost var before := ledger;
        var taken := TakeBack(u, o, earned[i], balance, now);
        TakenNext(old(ledger), before, ledger, u, o, earned, i, start, now, balance, reversed, taken);
        balance := balance - taken;
        reversed := reversed + taken;
      }
      assert earned[..|earned|] == earned;
    }

    /** One round: the smaller of the earned amount and what is left, never less than nothing. */
    method TakeBack(u: nat, o: nat, points: int, balance: int, now: int) returns (taken: int)
      modifies this`ledger
      ensures taken == Max(0, Min(points, balance))
      ensures ledger == if taken > 0 then old(ledger) + [Tx(u, -taken, Adjust, Some(o), None, now)] else old(ledger)
    {
      var amount := points;
      if balance - amount < 0 {
        amount := balance;
      }
      taken := 0;
      if amount > 0 {
        ledger := ledger + [Tx(u, -amount, Adjust, Some(o), None, now)];
        taken := amount;
      }
    }

    method ReverseOrderPoints(
      orders: map<nat, OrderRow>, o: nat, cfg: Settings, tiers: seq<Tier>, listing: seq<nat>, now: int
    ) returns (reversed: int)
      requires OwnersExist(Tables(), orders)
      requires Known(ledger, listing)
      modifies this
      ensures (Tables(), reversed) == Reverse(old(Tables()), orders, o, cfg, tiers, listing, now)
    {
      if !cfg.enabled || o !in orders || orders[o].user.None? {
        return 0;
      }
      var u := orders[o].user.value;
      if !HasRow(ledger, o, Earn) && !HasRow(ledger, o, Redeem) {
        return 0;
      }
      if HasRow(ledger, o, Adjust) {
        return 0;
      }
      reversed := UndoOrder(u, o, PointsList(ledger, listing), now);
      RecalculateTier(u, users[u].tier, cfg, tiers);
    }

    /** Credit back what was spent on the order, take back what it earned, and lower the XP. */
    method UndoOrder(u: nat, o: nat, earned: seq<int>, now: int) returns (reversed: int)
      requires u in users
      modifies this`ledger, this`users
      ensures (Tables(), reversed) == Undo(old(Tables()), u, o, earned, now)
    {
      ghost var before := ledger;
      var restored := Spent(ledger, o);
      if restored > 0 {
        ledger := ledger + [Tx(u, restored, Adjust, Some(o), None, now)];
      }
      assert ledger == Restored(before, u, o, now);
      var balance := GetBalance(u);
      reversed := ReverseEarned(u, o, earned, balance, now);
      users := users[u := users[u].(xp := Max(0, users[u].xp - reversed))];
    }

    method RedeemPoints(
      u: nat, amount: int, currency: string, maxDiscount: real, order: Option<nat>, cfg: Settings, now: int
    ) returns (r: Result<real, RedeemError>)
      modifies this`ledger, this`receipts
      ensures (Tables(), r) == RedeemStep(old(Tables()), u, amount, currency, maxDiscount, order, cfg, now)
    {
      if !cfg.enabled { return Err(Disabled); }
      if amount <= 0 { return Err(NotPositive); }
      if currency != "EUR" && currency != "USD" { return Err(UnsupportedCurrency); }
      var balance := GetBalance(u);
      if amount > balance { return Err(Insufficient(balance)); }
      if order.Some? && HasRow(ledger, order.value, Redeem) { return Err(AlreadyRedeemed); }
      var ratio := Ratio(cfg, currency);
      if ratio == 0.0 { return Err(ZeroRatio); }
      var discount := amount as real / ratio;
      if discount > maxDiscount { return Err(ExceedsMaximum(discount)); }
      ledger := ledger + [Tx(u, -amount, Redeem, order, None, now)];
      if order.Some? {
        receipts := receipts[order.value := Receipt(amount, discount)];
      }
      return Ok(discount);
    }

    method CheckNewCustomerBonus(u: nat, o: nat, cfg: Settings, now: int) returns (points: int)
      modifies this`ledger
      ensures (Tables(), points) == GiveBonus(old(Tables()), u, o, cfg, now)
    {
      if !cfg.bonusEnabled || EarnedElsewhere(ledger, u, o) {
        return 0;
      }
      points := cfg.bonusPoints;
      ledger := ledger + [Tx(u, points, Bonus, Some(o), None, now)];
    }

    /** One iteration of the expiry loop over users. */
    method ExpireUser(u: nat, ids: seq<nat>, now: int) returns (count: int)
      requires Known(ledger, ids)
      modifies this`ledger
      ensures Tables() == ExpireBatch(old(Tables()), u, ids, now)
      ensures count == |ids|
    {
      var balance := GetBalance(u);
      ghost var start := balance;
      ghost var points := PointsAt(ledger);
      count := 0;
      for i := 0 to |ids|
        invariant ledger == old(ledger) + ExpireRows(u, ids[..i], points, start, now)
        invariant balance == start + Sum(ExpireRows(u, ids[..i], points, start, now), PointsOf(u))
        invariant count == i
      {
        ExpireRowsNext(u, ids, i, points, start, now);
        assert ledger[ids[i]] == old(ledger)[ids[i]];
        var amount := Min(ledger[ids[i]].points, Max(0, balance));
        ledger := ledger + [Tx(u, -amount, Expire, None, Some(ids[i]), now)];
        balance := balance - amount;
        count := count + 1;
      }
      assert ids[..|ids|] == ids;
    }

    /** The listed ids grouped by user; `order` is the order in which the users first appear. */
    method GroupByUser(listing: seq<nat>) returns (order: seq<nat>, byUser: map<nat, seq<nat>>)
      requires Known(ledger, listing)
      ensures Ordered(order, byUser) && Grouped(ledger, listing, byUser)
    {
      order, byUser := [], map[];
      for i := 0 to |listing|
        invariant Ordered(order, byUser) && Grouped(ledger, listing[..i], byUser)
      {
        var u := ledger[listing[i]].user;
        GroupedStep(ledger, listing, i, byUser);
        OrderedStep(order, byUser, u, GroupOf(byUser, u) + [listing[i]]);
        if u !in byUser {
          order := order + [u];
        }
        byUser := WithOneMore(byUser, u, listing[i]);
      }
      assert listing[..|listing|] == listing;
    }

    /**
     * One pass. `listing` is the result of the expirable query; each user's batch is its own locked section,
     * and `meanwhile(k)` is what other writers append to the ledger between the k-th batch and the one before.
     * `users` is the order in which the users are taken.
     */
    method ProcessExpiration(cfg: Settings, listing: seq<nat>, now: int, meanwhile: nat -> seq<Tx>)
      returns (count: int, ghost users: seq<nat>)
      requires cfg.expirationDays > 0 ==>
        FreshListing(ledger, now - cfg.expirationDays * 86400, listing)
      modifies this`ledger
      ensures cfg.expirationDays <= 0 ==> count == 0 && ledger == old(ledger)
      ensures cfg.expirationDays > 0 ==>
        Known(old(ledger), listing) && count == |listing| &&
        NoRepeats(users) && (forall k :: 0 <= k < |listing| ==> old(ledger)[listing[k]].user in users) &&
        ledger == PassLedger(old(ledger), listing, users, meanwhile, now)
      ensures cfg.expirationDays > 0 && (forall k :: meanwhile(k) == []) ==>
        ExpiresAll(old(ledger), ledger, listing, now)
    {
      users := [];
      if cfg.expirationDays <= 0 {
        return 0, [];
      }
      ghost var before := ledger;
      FreshListingKnown(ledger, now - cfg.expirationDays * SECONDS_PER_DAY, listing);
      var order, byUser := GroupByUser(listing);
      count := 0;
      CountInNone(before, listing);
      assert order[..0] == [];
      for k := 0 to |order|
        invariant ledger == PassLedger(before, listing, order[..k], meanwhile, now)
        invariant count == CountIn(before, listing, order[..k])
      {
        var u := order[k];
        PassLedgerNext(before, listing, order, k, meanwhile, now);
        assert u in order && GroupOf(byUser, u) == OfUser(before, listing, u);
        ledger := ledger + meanwhile(k);
        var written := ExpireUser(u, byUser[u], now);
        count := count + written;
      }
      assert order[..|order|] == order;
      users := order;
      ListedUsers(before, listing, order, byUser);
      CountInAll(before, listing, order);
      if forall k :: meanwhile(k) == [] {
        PassLedgerAlone(before, listing, order, meanwhile, now);
        PassComplete(before, ledger, listing, order, now);
      }
    }
  }

  /** The user of every listed id has a group. */
  lemma ListedUsers(ledger: seq<Tx>, listing: seq<nat>, order: seq<nat>, byUser: map<nat, seq<nat>>)
    requires Known(ledger, listing) && Ordered(order, byUser) && Grouped(ledger, listing, byUser)
    ensures forall k :: 0 <= k < |listing| ==> ledger[listing[k]].user in order
    ensures forall u: nat :: u !in order ==> OfUser(ledger, listing, u) == []
  {
    forall u: nat | u !in order ensures OfUser(ledger, listing, u) == [] {
      assert GroupOf(byUser, u) == OfUser(ledger, listing, u);
    }
    forall k | 0 <= k < |listing| ensures ledger[listing[k]].user in order {
      OfUserMember(ledger, listing, ledger[listing[k]].user, listing[k]);
    }
  }
}
