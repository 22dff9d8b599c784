/** What one locked section of the loyalty service does to the tables, as functions of the tables. */
module LoyaltySteps {
  import opened Wrappers
  import opened Folds
  import opened LoyaltyData

  // ----- points of an order item -----

  function PriceBasisAmount(cfg: Settings, p: Product): real {
    match cfg.basis
    case ExclVatNoDiscount => p.price
    case ExclVatWithDiscount => p.price - p.discount
    case InclVatNoDiscount => p.price + p.vat
    case FinalPrice => p.finalPrice
  }

  /** Points per unit before rounding, with the tier multiplier where it applies. */
  function Rate(cfg: Settings, p: Product, multiplier: real): real {
    var base := PriceBasisAmount(cfg, p) * cfg.factor * p.coefficient;
    if cfg.tierMultiplierEnabled && multiplier > 1.0 then base * multiplier else base
  }

  function ItemPoints(cfg: Settings, line: Line, multiplier: real): int {
    (Rate(cfg, line.product, multiplier) * line.quantity as real).Floor + line.product.points * line.quantity
  }

  // ----- levels and tiers -----

  function UserLevel(cfg: Settings, xp: int): int {
    if cfg.xpPerLevel <= 0 then 1 else 1 + xp / cfg.xpPerLevel
  }

  function TierFor(cfg: Settings, tiers: seq<Tier>, xp: int): Option<Tier> {
    TierForLevel(tiers, UserLevel(cfg, xp))
  }

  /** A missing tier ranks below every tier. */
  function Rank(t: Option<Tier>): int {
    if t.None? then -1 else t.value.requiredLevel
  }

  function DirectionOf(before: Option<Tier>, after: Option<Tier>): Direction {
    if Rank(after) > Rank(before) then Up else if Rank(after) < Rank(before) then Down else Same
  }

  /**
   * Recalculation from the stored XP. `seen` is the tier the in-memory user carries, and it alone
   * decides whether a save happens; the save announces a change of the stored tier.
   */
  function Recalculate(s: Store, u: nat, seen: Option<Tier>, cfg: Settings, tiers: seq<Tier>): Store
    requires u in s.users
  {
    var row := s.users[u];
    var due := TierFor(cfg, tiers, row.xp);
    if seen == due then s else
      s.(users := s.users[u := row.(tier := due)],
         announced := s.announced +
           if row.tier == due then [] else [TierChange(u, row.tier, due, DirectionOf(row.tier, due))])
  }

  // ----- award -----

  /** Orders point at users that exist. */
  predicate OwnersExist(s: Store, orders: map<nat, OrderRow>) {
    forall o :: o in orders && orders[o].user.Some? ==> orders[o].user.value in s.users
  }

  function Multiplier(seen: Option<Tier>): real {
    if seen.Some? then seen.value.multiplier else 1.0
  }

  function AwardRows(u: nat, o: nat, items: seq<Line>, cfg: Settings, multiplier: real, now: int): (rows: seq<Tx>)
    ensures |rows| == |items|
    ensures forall t :: t in rows ==> t.user == u && Refers(t, o, Earn) && t.marks.None?
  {
    seq(|items|, i requires 0 <= i < |items| =>
      Tx(u, ItemPoints(cfg, items[i], multiplier), Earn, Some(o), None, now))
  }

  /** The rows are written and their points are added to the user's XP. */
  function Grant(s: Store, u: nat, rows: seq<Tx>): Store
    requires u in s.users
  {
    var row := s.users[u];
    s.(ledger := s.ledger + rows, users := s.users[u := row.(xp := row.xp + Sum(rows, PointsOf(u)))])
  }

  function Award(
    s: Store, orders: map<nat, OrderRow>, o: nat, cfg: Settings, tiers: seq<Tier>, seen: Option<Tier>, now: int
  ): (Store, int)
    requires OwnersExist(s, orders)
  {
    if !cfg.enabled || o !in orders || orders[o].user.None? || HasRow(s.ledger, o, Earn) then (s, 0) else
      var u := orders[o].user.value;
      var rows := AwardRows(u, o, orders[o].items, cfg, Multiplier(seen), now);
      (Recalculate(Grant(s, u, rows), u, seen, cfg, tiers), Sum(rows, PointsOf(u)))
  }

  // ----- reversal -----

  /** ADJUST rows of the reversal loop over earned points, given the balance before the loop. */
  function ReversalRows(u: nat, o: nat, points: seq<int>, balance: int, now: int): (rows: seq<Tx>) {
    if points == [] then [] else
      var k := |points| - 1;
      ReverseOne(u, o, ReversalRows(u, o, points[..k], balance, now), points[k], balance, now)
  }

  /** The rows after one more earned amount: clamped to what is left, and nothing for a zero amount. */
  function ReverseOne(u: nat, o: nat, rows: seq<Tx>, points: int, balance: int, now: int): seq<Tx> {
    var left := balance + Sum(rows, PointsOf(u));
    var amount := if left - points < 0 then left else points;
    if amount > 0 then rows + [Tx(u, -amount, Adjust, Some(o), None, now)] else rows
  }

  lemma ReverseOneSum(u: nat, o: nat, rows: seq<Tx>, points: int, balance: int, now: int)
    ensures
      var left := balance + Sum(rows, PointsOf(u));
      Sum(ReverseOne(u, o, rows, points, balance, now), PointsOf(u))
      == Sum(rows, PointsOf(u)) - Max(0, Min(points, left))
  {
    var left := balance + Sum(rows, PointsOf(u));
    var amount := if left - points < 0 then left else points;
    var row := Tx(u, -amount, Adjust, Some(o), None, now);
    SumConcat(rows, [row], PointsOf(u));
    assert Sum([row], PointsOf(u)) == -amount;
  }

  /** One more earned amount. */
  lemma ReversalRowsNext(u: nat, o: nat, points: seq<int>, i: nat, balance: int, now: int)
    requires i < |points|
    ensures
      var rows := ReversalRows(u, o, points[..i], balance, now);
      var next := ReversalRows(u, o, points[..i + 1], balance, now);
      var taken := Max(0, Min(points[i], balance + Sum(rows, PointsOf(u))));
      next == (if taken > 0 then rows + [Tx(u, -taken, Adjust, Some(o), None, now)] else rows) &&
      Sum(next, PointsOf(u)) == Sum(rows, PointsOf(u)) - taken
  {
    assert points[..i + 1][..i] == points[..i];
    ReverseOneSum(u, o, ReversalRows(u, o, points[..i], balance, now), points[i], balance, now);
  }

  /** Where the loop stands once the given amounts have been taken back. */
  ghost predicate TakenSoFar(
    before: seq<Tx>, ledger: seq<Tx>, u: nat, o: nat, points: seq<int>, start: int, now: int, balance: int, reversed: int
  ) {
    var rows := ReversalRows(u, o, points, start, now);
    ledger == before + rows && reversed == -Sum(rows, PointsOf(u)) && balance == start - reversed
  }

  lemma TakenNext(
    before: seq<Tx>, ledger: seq<Tx>, after: seq<Tx>, u: nat, o: nat, points: seq<int>, i: nat, start: int, now: int,
    balance: int, reversed: int, taken: int
  )
    requires i < |points| && TakenSoFar(before, ledger, u, o, points[..i], start, now, balance, reversed)
    requires taken == Max(0, Min(points[i], balance))
    requires after == if taken > 0 then ledger + [Tx(u, -taken, Adjust, Some(o), None, now)] else ledger
    ensures TakenSoFar(before, after, u, o, points[..i + 1], start, now, balance - taken, reversed + taken)
  {
    ReversalRowsNext(u, o, points, i, start, now);
    JoinedRows(before, ReversalRows(u, o, points[..i], start, now), Tx(u, -taken, Adjust, Some(o), None, now));
  }

  lemma JoinedRows(before: seq<Tx>, rows: seq<Tx>, row: Tx)
    ensures before + rows + [row] == before + (rows + [row])
  {
  }

  lemma {:induction false} ReversalRowShape(u: nat, o: nat, points: seq<int>, balance: int, now: int)
    ensures forall t :: t in ReversalRows(u, o, points, balance, now) ==>
      t.user == u && t.points < 0 && Refers(t, o, Adjust) && t.marks.None? && t.at == now
  {
    if points != [] {
      ReversalRowShape(u, o, points[..|points| - 1], balance, now);
    }
  }

  /** Points spent on the order, as a positive number. */
  function Spent(ledger: seq<Tx>, o: nat): int {
    -Sum(ledger, OrderPointsOf(o, Redeem))
  }

  /** The ledger once the points spent on the order have been credited back. */
  function Restored(ledger: seq<Tx>, u: nat, o: nat, now: int): seq<Tx> {
    if Spent(ledger, o) > 0 then ledger + [Tx(u, Spent(ledger, o), Adjust, Some(o), None, now)] else ledger
  }

  function PointsList(ledger: seq<Tx>, ids: seq<nat>): (ps: seq<int>)
    requires Known(ledger, ids)
    ensures |ps| == |ids| && forall k :: 0 <= k < |ids| ==> ps[k] == ledger[ids[k]].points
  {
    seq(|ids|, k requires 0 <= k < |ids| => ledger[ids[k]].points)
  }

  /** Something to reverse, and not reversed yet. */
  predicate Reversible(ledger: seq<Tx>, o: nat) {
    (HasRow(ledger, o, Earn) || HasRow(ledger, o, Redeem)) && !HasRow(ledger, o, Adjust)
  }

  /** `listing` is the order in which the query returns the EARN rows of the order. */
  function Reverse(
    s: Store, orders: map<nat, OrderRow>, o: nat, cfg: Settings, tiers: seq<Tier>, listing: seq<nat>, now: int
  ): (Store, int)
    requires OwnersExist(s, orders)
    requires Known(s.ledger, listing)
  {
    if !cfg.enabled || o !in orders || orders[o].user.None? || !Reversible(s.ledger, o) then (s, 0) else
      var u := orders[o].user.value;
      var (debited, total) := Undo(s, u, o, PointsList(s.ledger, listing), now);
      (Recalculate(debited, u, s.users[u].tier, cfg, tiers), total)
  }

  /** The spent points are credited back, then the earned ones are taken, and the XP follows. */
  function Undo(s: Store, u: nat, o: nat, earned: seq<int>, now: int): (Store, int)
    requires u in s.users
  {
    var credited := Restored(s.ledger, u, o, now);
    var rows := ReversalRows(u, o, earned, Balance(credited, u), now);
    var total := -Sum(rows, PointsOf(u));
    var row := s.users[u];
    (s.(ledger := credited + rows, users := s.users[u := row.(xp := Max(0, row.xp - total))]), total)
  }

  // ----- redemption -----

  datatype RedeemError =
    | Disabled | NotPositive | UnsupportedCurrency | Insufficient(balance: int)
    | AlreadyRedeemed | ZeroRatio | ExceedsMaximum(discount: real)

  function Ratio(cfg: Settings, currency: string): real {
    if currency == "EUR" then cfg.ratioEur else cfg.ratioUsd
  }

  function RedeemCheck(
    s: Store, u: nat, amount: int, currency: string, maxDiscount: real, order: Option<nat>, cfg: Settings
  ): Result<real, RedeemError> {
    if !cfg.enabled then Err(Disabled)
    else if amount <= 0 then Err(NotPositive)
    else if currency != "EUR" && currency != "USD" then Err(UnsupportedCurrency)
    else if amount > Balance(s.ledger, u) then Err(Insufficient(Balance(s.ledger, u)))
    else if order.Some? && HasRow(s.ledger, order.value, Redeem) then Err(AlreadyRedeemed)
    else if Ratio(cfg, currency) == 0.0 then Err(ZeroRatio)
    else
      var discount := amount as real / Ratio(cfg, currency);
      if discount > maxDiscount then Err(ExceedsMaximum(discount)) else Ok(discount)
  }

  function RedeemStep(
    s: Store, u: nat, amount: int, currency: string, maxDiscount: real, order: Option<nat>, cfg: Settings, now: int
  ): (Store, Result<real, RedeemError>) {
    var r := RedeemCheck(s, u, amount, currency, maxDiscount, order, cfg);
    if r.Err? then (s, r) else
      (s.(ledger := s.ledger + [Tx(u, -amount, Redeem, order, None, now)],
          receipts := if order.None? then s.receipts else s.receipts[order.value := Receipt(amount, r.value)]),
       r)
  }

  // ----- bonus -----

  /** An EARN row of the user that does not refer to the order. */
  predicate EarnedElsewhere(ledger: seq<Tx>, u: nat, o: nat) {
    exists i :: 0 <= i < |ledger| && ledger[i].user == u && ledger[i].kind == Earn && ledger[i].order != Some(o)
  }

  function GiveBonus(s: Store, u: nat, o: nat, cfg: Settings, now: int): (Store, int) {
    if !cfg.bonusEnabled || EarnedElsewhere(s.ledger, u, o) then (s, 0) else
      (s.(ledger := s.ledger + [Tx(u, cfg.bonusPoints, Bonus, Some(o), None, now)]), cfg.bonusPoints)
  }

  // ----- expiry -----

  /** EXPIRE rows for one user's listed transactions, given the balance under the lock. */
  function ExpireRows(u: nat, ids: seq<nat>, points: nat -> int, balance: int, now: int): (rows: seq<Tx>)
    ensures |rows| == |ids|
  {
    if ids == [] then [] else
      var k := |ids| - 1;
      var rows := ExpireRows(u, ids[..k], points, balance, now);
      rows + [ExpireRow(u, rows, ids[k], points(ids[k]), balance, now)]
  }

  /** The marker for one more listed id: clamped to what is left, possibly zero. */
  function ExpireRow(u: nat, rows: seq<Tx>, id: nat, points: int, balance: int, now: int): Tx {
    var left := balance + Sum(rows, PointsOf(u));
    Tx(u, -Min(points, Max(0, left)), Expire, None, Some(id), now)
  }

  lemma {:induction false} ExpireRowShape(u: nat, ids: seq<nat>, points: nat -> int, balance: int, now: int)
    ensures
      var rows := ExpireRows(u, ids, points, balance, now);
      forall k :: 0 <= k < |ids| ==>
        rows[k].user == u && rows[k].kind == Expire && rows[k].marks == Some(ids[k]) && rows[k].order.None? &&
        rows[k].at == now
  {
    if ids != [] {
      ExpireRowShape(u, ids[..|ids| - 1], points, balance, now);
    }
  }

  /** One more listed id: its row, and what is left of the balance. */
  lemma ExpireRowsNext(u: nat, ids: seq<nat>, i: nat, points: nat -> int, balance: int, now: int)
    requires i < |ids|
    ensures
      var rows := ExpireRows(u, ids[..i], points, balance, now);
      var amount := Min(points(ids[i]), Max(0, balance + Sum(rows, PointsOf(u))));
      var row := Tx(u, -amount, Expire, None, Some(ids[i]), now);
      ExpireRows(u, ids[..i + 1], points, balance, now) == rows + [row] &&
      Sum(rows + [row], PointsOf(u)) == Sum(rows, PointsOf(u)) - amount
  {
    assert ids[..i + 1][..i] == ids[..i];
    var rows := ExpireRows(u, ids[..i], points, balance, now);
    var amount := Min(points(ids[i]), Max(0, balance + Sum(rows, PointsOf(u))));
    SumAppend(rows, Tx(u, -amount, Expire, None, Some(ids[i]), now), PointsOf(u));
  }

  /** One user's batch: the list may have been read before the lock was taken. */
  function ExpireBatch(s: Store, u: nat, ids: seq<nat>, now: int): Store {
    s.(ledger := s.ledger + ExpireRows(u, ids, PointsAt(s.ledger), Balance(s.ledger, u), now))
  }

  /** The listed ids that belong to the user, in list order. */
  function OfUser(ledger: seq<Tx>, ids: seq<nat>, u: nat): (mine: seq<nat>)
    requires Known(ledger, ids)
    ensures Known(ledger, mine)
  {
    if ids == [] then [] else
      var k := |ids| - 1;
      OfUser(ledger, ids[..k], u) + if ledger[ids[k]].user == u then [ids[k]] else []
  }

  lemma {:induction false} OfUserMember(ledger: seq<Tx>, ids: seq<nat>, u: nat, id: nat)
    requires Known(ledger, ids)
    ensures id in OfUser(ledger, ids, u) <==> id in ids && ledger[id].user == u
  {
    if ids != [] {
      var k := |ids| - 1;
      OfUserMember(ledger, ids[..k], u, id);
      assert id in ids <==> id in ids[..k] || id == ids[k];
    }
  }

  predicate NoRepeats(ids: seq<nat>) {
    forall a, b :: 0 <= a < b < |ids| ==> ids[a] != ids[b]
  }

  /** The ids grouped under a user, none when there is no group. */
  function GroupOf(byUser: map<nat, seq<nat>>, u: nat): seq<nat> {
    if u in byUser then byUser[u] else []
  }

  /** The order names each user with a group once. */
  ghost predicate Ordered(order: seq<nat>, byUser: map<nat, seq<nat>>) {
    NoRepeats(order) && forall u :: u in order <==> u in byUser
  }

  ghost predicate Grouped(ledger: seq<Tx>, listing: seq<nat>, byUser: map<nat, seq<nat>>)
    requires Known(ledger, listing)
  {
    forall u: nat :: GroupOf(byUser, u) == OfUser(ledger, listing, u)
  }

  lemma OfUserNext(ledger: seq<Tx>, listing: seq<nat>, i: nat, v: nat)
    requires i < |listing| && Known(ledger, listing)
    ensures OfUser(ledger, listing[..i + 1], v)
      == if ledger[listing[i]].user == v then OfUser(ledger, listing[..i], v) + [listing[i]]
         else OfUser(ledger, listing[..i], v)
  {
    assert listing[..i + 1][..i] == listing[..i];
  }

  /** One more listed id goes to the end of its user's group. */
  function WithOneMore(byUser: map<nat, seq<nat>>, u: nat, id: nat): map<nat, seq<nat>> {
    byUser[u := GroupOf(byUser, u) + [id]]
  }

  lemma GroupedStep(ledger: seq<Tx>, listing: seq<nat>, i: nat, byUser: map<nat, seq<nat>>)
    requires i < |listing| && Known(ledger, listing) && Grouped(ledger, listing[..i], byUser)
    ensures Grouped(ledger, listing[..i + 1], WithOneMore(byUser, ledger[listing[i]].user, listing[i]))
  {
    var u := ledger[listing[i]].user;
    forall v: nat ensures GroupOf(WithOneMore(byUser, u, listing[i]), v) == OfUser(ledger, listing[..i + 1], v) {
      GroupedAt(ledger, listing, i, byUser, v);
    }
  }

  lemma GroupedAt(ledger: seq<Tx>, listing: seq<nat>, i: nat, byUser: map<nat, seq<nat>>, v: nat)
    requires i < |listing| && Known(ledger, listing) && GroupOf(byUser, v) == OfUser(ledger, listing[..i], v)
    ensures GroupOf(WithOneMore(byUser, ledger[listing[i]].user, listing[i]), v) == OfUser(ledger, listing[..i + 1], v)
  {
    OfUserNext(ledger, listing, i, v);
  }

  lemma OrderedStep(order: seq<nat>, byUser: map<nat, seq<nat>>, u: nat, ids: seq<nat>)
    requires Ordered(order, byUser)
    ensures Ordered(if u in byUser then order else order + [u], byUser[u := ids])
  {
    assert forall v :: v in order + [u] <==> v in order || v == u;
    if u !in byUser {
      assert u !in order;
    }
  }

  function RowsOf(rows: seq<Tx>, u: nat): seq<Tx> {
    if rows == [] then [] else
      var k := |rows| - 1;
      RowsOf(rows[..k], u) + if rows[k].user == u then [rows[k]] else []
  }

  /** The rows added for the user are exactly those of the user's batch. */
  predicate BatchWritten(before: seq<Tx>, after: seq<Tx>, listing: seq<nat>, u: nat, now: int)
    requires Known(before, listing) && before <= after
  {
    RowsOf(after[|before|..], u)
    == ExpireRows(u, OfUser(before, listing, u), PointsAt(before), Balance(before, u), now)
  }

  /**
   * A whole pass over `listing`: each user's new rows are those of the user's own batch.
   * Rows of different users may interleave in any way.
   */
  ghost predicate ExpiresAll(before: seq<Tx>, after: seq<Tx>, listing: seq<nat>, now: int)
    requires Known(before, listing)
  {
    before <= after && forall u: nat :: BatchWritten(before, after, listing, u, now)
  }
}
