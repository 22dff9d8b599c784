/** The rows the loyalty service reads and writes, and the manager queries over them. */
module LoyaltyData {
  import opened Wrappers
  import opened Folds

  datatype Kind = Earn | Redeem | Expire | Adjust | Bonus

  /**
   * One row of the append-only ledger. Its primary key is its position in the ledger.
   * `marks` is the transaction id that the description of an EXPIRE row names.
   */
  datatype Tx = Tx(user: nat, points: int, kind: Kind, order: Option<nat>, marks: Option<nat>, at: int)

  datatype Tier = Tier(id: nat, requiredLevel: nat, multiplier: real)

  datatype UserRow = UserRow(xp: int, tier: Option<Tier>)

  datatype PriceBasis = ExclVatNoDiscount | ExclVatWithDiscount | InclVatNoDiscount | FinalPrice

  /** The settings the service looks up at run time. */
  datatype Settings = Settings(
    enabled: bool,
    factor: real,
    basis: PriceBasis,
    tierMultiplierEnabled: bool,
    xpPerLevel: int,
    bonusEnabled: bool,
    bonusPoints: int,
    ratioEur: real,
    ratioUsd: real,
    expirationDays: int)

  datatype Product = Product(
    price: real, discount: real, vat: real, finalPrice: real, coefficient: real, points: nat)

  datatype Line = Line(product: Product, quantity: nat)

  /** What the service needs of an order: its user (none for a guest) and its items. */
  datatype OrderRow = OrderRow(user: Option<nat>, items: seq<Line>)

  datatype Direction = Up | Down | Same

  datatype TierChange = TierChange(user: nat, before: Option<Tier>, after: Option<Tier>, direction: Direction)

  /** The redemption kept in an order's metadata. */
  datatype Receipt = Receipt(points: int, discount: real)

  /** The tables the service works on, with the tier changes it has announced. */
  datatype Store = Store(
    ledger: seq<Tx>,
    users: map<nat, UserRow>,
    receipts: map<nat, Receipt>,
    announced: seq<TierChange>)

  // ----- queries of the transaction manager -----

  function PointsOf(u: nat): Tx -> int {
    (t: Tx) => if t.user == u then t.points else 0
  }

  /** The balance is never stored: it is the sum of the user's rows. */
  function Balance(ledger: seq<Tx>, u: nat): int {
    Sum(ledger, PointsOf(u))
  }

  function OrderPointsOf(o: nat, kind: Kind): Tx -> int {
    (t: Tx) => if t.order == Some(o) && t.kind == kind then t.points else 0
  }

  predicate Refers(t: Tx, o: nat, kind: Kind) {
    t.order == Some(o) && t.kind == kind
  }

  predicate HasRow(ledger: seq<Tx>, o: nat, kind: Kind) {
    exists i :: 0 <= i < |ledger| && Refers(ledger[i], o, kind)
  }

  /** Primary keys of the order's EARN rows, oldest first. */
  function EarnIds(ledger: seq<Tx>, o: nat): (ids: seq<nat>)
    ensures forall i: nat :: i in ids <==> i < |ledger| && Refers(ledger[i], o, Earn)
  {
    if ledger == [] then [] else
      var k := |ledger| - 1;
      EarnIds(ledger[..k], o) + if Refers(ledger[k], o, Earn) then [k] else []
  }

  predicate Marked(ledger: seq<Tx>, id: nat) {
    exists i :: 0 <= i < |ledger| && ledger[i].kind == Expire && ledger[i].marks == Some(id)
  }

  predicate ExpirableRow(t: Tx, cutoff: int) {
    t.kind == Earn && t.at < cutoff && t.points > 0
  }

  /** Old positive EARN rows that no EXPIRE row names yet. */
  predicate Expirable(ledger: seq<Tx>, cutoff: int, id: nat) {
    id < |ledger| && ExpirableRow(ledger[id], cutoff) && !Marked(ledger, id)
  }

  /** All the ids are primary keys of ledger rows. */
  predicate Known(ledger: seq<Tx>, ids: seq<nat>) {
    forall k :: 0 <= k < |ids| ==> ids[k] < |ledger|
  }

  function PointsAt(ledger: seq<Tx>): nat -> int {
    (id: nat) => if id < |ledger| then ledger[id].points else 0
  }

  // ----- queries of the tier manager -----

  /** Highest tier whose required level does not exceed the level. */
  function TierForLevel(tiers: seq<Tier>, level: int): (r: Option<Tier>)
    ensures r.None? ==> forall t :: t in tiers ==> t.requiredLevel > level
    ensures r.Some? ==> r.value in tiers && r.value.requiredLevel <= level
    ensures r.Some? ==> forall t :: t in tiers && t.requiredLevel <= level ==> t.requiredLevel <= r.value.requiredLevel
  {
    if tiers == [] then None else
      var rest := TierForLevel(tiers[1..], level);
      var t := tiers[0];
      assert forall x :: x in tiers <==> x == t || x in tiers[1..];
      if t.requiredLevel <= level && (rest.None? || rest.value.requiredLevel < t.requiredLevel) then Some(t) else rest
  }

  /** Lowest tier strictly above the given one, or the lowest of all when there is none. */
  function NextTier(tiers: seq<Tier>, current: Option<Tier>): (r: Option<Tier>)
    ensures r.None? ==> forall t :: t in tiers ==> !Above(t, current)
    ensures r.Some? ==> r.value in tiers && Above(r.value, current)
    ensures r.Some? ==> forall t :: t in tiers && Above(t, current) ==> r.value.requiredLevel <= t.requiredLevel
  {
    if tiers == [] then None else
      var rest := NextTier(tiers[1..], current);
      var t := tiers[0];
      assert forall x :: x in tiers <==> x == t || x in tiers[1..];
      if Above(t, current) && (rest.None? || t.requiredLevel < rest.value.requiredLevel) then Some(t) else rest
  }

  predicate Above(t: Tier, current: Option<Tier>) {
    current.None? || t.requiredLevel > current.value.requiredLevel
  }

  /** Required levels are unique in the tier table. */
  predicate DistinctLevels(tiers: seq<Tier>) {
    forall a, b :: a in tiers && b in tiers && a.requiredLevel == b.requiredLevel ==> a == b
  }

  // ----- facts about the queries -----

  lemma {:induction false} EarnIdsSum(ledger: seq<Tx>, o: nat)
    ensures Sum<nat>(EarnIds(ledger, o), PointsAt(ledger)) == Sum(ledger, OrderPointsOf(o, Earn))
  {
    if ledger != [] {
      var k := |ledger| - 1;
      var front := EarnIds(ledger[..k], o);
      EarnIdsSum(ledger[..k], o);
      SumCongruent<nat>(front, PointsAt(ledger[..k]), PointsAt(ledger));
      if Refers(ledger[k], o, Earn) {
        SumConcat<nat>(front, [k], PointsAt(ledger));
        assert Sum<nat>([k], PointsAt(ledger)) == ledger[k].points;
      } else {
        assert front + [] == front;
      }
    }
  }

  /** Whatever the order in which a query returns them, the EARN rows of an order add up to the same total. */
  lemma ListingSum(ledger: seq<Tx>, o: nat, listing: seq<nat>)
    requires multiset(listing) == multiset(EarnIds(ledger, o))
    ensures Sum<nat>(listing, PointsAt(ledger)) == Sum(ledger, OrderPointsOf(o, Earn))
    ensures Known(ledger, listing)
    ensures forall i: nat :: i in listing <==> i < |ledger| && Refers(ledger[i], o, Earn)
  {
    SumPermutation<nat>(listing, EarnIds(ledger, o), PointsAt(ledger));
    EarnIdsSum(ledger, o);
    forall i: nat
      ensures i in listing <==> i in EarnIds(ledger, o)
    {
      assert i in listing <==> i in multiset(listing);
      assert i in EarnIds(ledger, o) <==> i in multiset(EarnIds(ledger, o));
    }
    assert forall k :: 0 <= k < |listing| ==> listing[k] in listing;
  }
}
