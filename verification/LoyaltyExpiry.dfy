/** The expiry pass: how much it takes, which rows it marks, and what a stale list does. */
module LoyaltyExpiry {
  import opened Wrappers
  import opened Folds
  import opened LoyaltyData
  import opened LoyaltySteps

  function MarksOf(id: nat): Tx -> int {
    (t: Tx) => if t.kind == Expire && t.marks == Some(id) then 1 else 0
  }

  /** How many EXPIRE rows name the transaction. */
  function Markers(ledger: seq<Tx>, id: nat): int {
    Sum(ledger, MarksOf(id))
  }

  function OccurrencesOf(id: nat): nat -> int {
    (i: nat) => if i == id then 1 else 0
  }

  // ----- one user's batch -----

  /** The batch takes the listed total, or the whole balance when that is less, and nothing of a negative one. */
  lemma {:induction false} ExpireRowsTotal(u: nat, ids: seq<nat>, points: nat -> int, balance: int, now: int)
    requires forall i :: i in ids ==> points(i) >= 0
    ensures -Sum(ExpireRows(u, ids, points, balance, now), PointsOf(u)) == Min(Sum(ids, points), Max(0, balance))
    ensures Sum(ids, points) >= 0
  {
    if ids != [] {
      var k := |ids| - 1;
      assert ids[k] in ids && forall i :: i in ids[..k] ==> i in ids;
      ExpireRowsTotal(u, ids[..k], points, balance, now);
      var rows := ExpireRows(u, ids, points, balance, now);
      assert rows[..k] == ExpireRows(u, ids[..k], points, balance, now);
    }
  }

  /** Even with a stale list the balance stays at or above zero, because the clamp reads it under the lock. */
  lemma {:induction false} ExpireRowsKeepBalance(u: nat, ids: seq<nat>, points: nat -> int, balance: int, now: int)
    requires balance >= 0
    ensures balance + Sum(ExpireRows(u, ids, points, balance, now), PointsOf(u)) >= 0
  {
    if ids != [] {
      var k := |ids| - 1;
      ExpireRowsKeepBalance(u, ids[..k], points, balance, now);
      var rows := ExpireRows(u, ids, points, balance, now);
      assert rows[..k] == ExpireRows(u, ids[..k], points, balance, now);
    }
  }

  lemma {:induction false} ExpireRowsMark(u: nat, ids: seq<nat>, points: nat -> int, balance: int, now: int, id: nat)
    ensures Markers(ExpireRows(u, ids, points, balance, now), id) == Sum<nat>(ids, OccurrencesOf(id))
  {
    if ids != [] {
      var k := |ids| - 1;
      ExpireRowsMark(u, ids[..k], points, balance, now, id);
      var rows := ExpireRows(u, ids, points, balance, now);
      assert rows[..k] == ExpireRows(u, ids[..k], points, balance, now);
    }
  }

  lemma {:induction false} Occurrences(ids: seq<nat>, id: nat)
    ensures Sum<nat>(ids, OccurrencesOf(id)) >= 0
    ensures Sum<nat>(ids, OccurrencesOf(id)) > 0 <==> id in ids
    ensures NoRepeats(ids) ==> Sum<nat>(ids, OccurrencesOf(id)) <= 1
  {
    if ids != [] {
      var k := |ids| - 1;
      Occurrences(ids[..k], id);
      assert id in ids <==> id in ids[..k] || id == ids[k];
    }
  }

  lemma {:induction false} RepeatedOccurrences(ids: seq<nat>, a: nat, b: nat)
    requires a < b < |ids| && ids[a] == ids[b]
    ensures Sum<nat>(ids, OccurrencesOf(ids[a])) >= 2
  {
    var k := |ids| - 1;
    if b == k {
      Occurrences(ids[..k], ids[a]);
      assert ids[..k][a] == ids[a];
    } else {
      RepeatedOccurrences(ids[..k], a, b);
    }
  }

  lemma {:induction false} MarkersPositive(ledger: seq<Tx>, id: nat)
    ensures Markers(ledger, id) >= 0
    ensures Markers(ledger, id) > 0 <==> Marked(ledger, id)
  {
    if ledger != [] {
      var k := |ledger| - 1;
      MarkersPositive(ledger[..k], id);
      assert forall i :: 0 <= i < k ==> ledger[..k][i] == ledger[i];
    }
  }

  /** No transaction is expired twice. */
  ghost predicate SingleMarkers(ledger: seq<Tx>) {
    forall id: nat :: Markers(ledger, id) <= 1
  }

  /**
   * A batch keeps every transaction at one marker exactly when nothing on its list has been marked
   * between the unlocked read and the lock, and nothing is listed twice.
   */
  lemma BatchKeepsSingleMarkers(s: Store, u: nat, ids: seq<nat>, now: int)
    requires SingleMarkers(s.ledger)
    ensures SingleMarkers(ExpireBatch(s, u, ids, now).ledger)
      <==> NoRepeats(ids) && forall id :: id in ids ==> !Marked(s.ledger, id)
  {
    var rows := ExpireRows(u, ids, PointsAt(s.ledger), Balance(s.ledger, u), now);
    var after := s.ledger + rows;
    forall id: nat
      ensures Markers(after, id) == Markers(s.ledger, id) + Sum<nat>(ids, OccurrencesOf(id))
      ensures Markers(after, id) <= 1 || (Marked(s.ledger, id) && id in ids) || !NoRepeats(ids)
      ensures Marked(s.ledger, id) && id in ids ==> Markers(after, id) > 1
    {
      SumConcat(s.ledger, rows, MarksOf(id));
      ExpireRowsMark(u, ids, PointsAt(s.ledger), Balance(s.ledger, u), now, id);
      Occurrences(ids, id);
      MarkersPositive(s.ledger, id);
    }
    if !NoRepeats(ids) {
      var a, b :| 0 <= a < b < |ids| && ids[a] == ids[b];
      RepeatedOccurrences(ids, a, b);
      MarkersPositive(s.ledger, ids[a]);
      assert Markers(after, ids[a]) > 1;
    }
  }

  lemma SingleExpireRow(u: nat, id: nat, points: nat -> int, balance: int, now: int)
    ensures ExpireRows(u, [id], points, balance, now)
      == [Tx(u, -Min(points(id), Max(0, balance)), Expire, None, Some(id), now)]
  {
    assert [id][..0] == [];
  }

  lemma SingleBatch(s: Store, u: nat, id: nat, now: int)
    requires id < |s.ledger|
    ensures
      var taken := Min(s.ledger[id].points, Max(0, Balance(s.ledger, u)));
      var after := ExpireBatch(s, u, [id], now);
      after == s.(ledger := s.ledger + [Tx(u, -taken, Expire, None, Some(id), now)]) &&
      Balance(after.ledger, u) == Balance(s.ledger, u) - taken &&
      Markers(after.ledger, id) == Markers(s.ledger, id) + 1
  {
    var taken := Min(s.ledger[id].points, Max(0, Balance(s.ledger, u)));
    var row := Tx(u, -taken, Expire, None, Some(id), now);
    SingleExpireRow(u, id, PointsAt(s.ledger), Balance(s.ledger, u), now);
    SumAppend(s.ledger, row, PointsOf(u));
    SumAppend(s.ledger, row, MarksOf(id));
  }

  /** Two passes that both read their list before either takes the lock expire one EARN row twice. */
  lemma OverlappingPassesExpireTwice(s: Store, cutoff: int, id: nat, now: int)
    requires Expirable(s.ledger, cutoff, id)
    ensures
      var u := s.ledger[id].user;
      var points := s.ledger[id].points;
      var first := ExpireBatch(s, u, [id], now);
      var second := ExpireBatch(first, u, [id], now);
      Markers(second.ledger, id) == 2 &&
      (Balance(s.ledger, u) >= 2 * points ==> Balance(second.ledger, u) == Balance(s.ledger, u) - 2 * points)
  {
    var u := s.ledger[id].user;
    MarkersPositive(s.ledger, id);
    SingleBatch(s, u, id, now);
    SingleBatch(ExpireBatch(s, u, [id], now), u, id, now);
  }

  // ----- a whole pass -----

  lemma {:induction false} RowsOfMember(rows: seq<Tx>, u: nat, t: Tx)
    ensures t in RowsOf(rows, u) <==> t in rows && t.user == u
  {
    if rows != [] {
      var k := |rows| - 1;
      RowsOfMember(rows[..k], u, t);
      assert t in rows <==> t in rows[..k] || t == rows[k];
    }
  }

  lemma {:induction false} RowsOfSum(rows: seq<Tx>, u: nat, w: Tx -> int)
    requires forall t :: t in rows && t.user != u ==> w(t) == 0
    ensures Sum(RowsOf(rows, u), w) == Sum(rows, w)
  {
    if rows != [] {
      var k := |rows| - 1;
      assert rows[k] in rows && forall t :: t in rows[..k] ==> t in rows;
      RowsOfSum(rows[..k], u, w);
      SumAppend(RowsOf(rows[..k], u), rows[k], w);
      assert RowsOf(rows[..k], u) + [] == RowsOf(rows[..k], u);
    }
  }

  lemma {:induction false} OfUserOccurrences(ledger: seq<Tx>, ids: seq<nat>, u: nat, id: nat)
    requires Known(ledger, ids) && id < |ledger|
    ensures Sum<nat>(OfUser(ledger, ids, u), OccurrencesOf(id))
      == if ledger[id].user == u then Sum<nat>(ids, OccurrencesOf(id)) else 0
  {
    if ids != [] {
      var k := |ids| - 1;
      OfUserOccurrences(ledger, ids[..k], u, id);
      SumAppend<nat>(OfUser(ledger, ids[..k], u), ids[k], OccurrencesOf(id));
      assert OfUser(ledger, ids[..k], u) + [] == OfUser(ledger, ids[..k], u);
    }
  }

  /** A pass marks each listed transaction exactly once, and no other. */
  lemma PassMarksListed(before: seq<Tx>, after: seq<Tx>, listing: seq<nat>, now: int, id: nat)
    requires Known(before, listing) && NoRepeats(listing) && id < |before|
    requires ExpiresAll(before, after, listing, now)
    ensures Markers(after, id) == Markers(before, id) + if id in listing then 1 else 0
  {
    var rows := after[|before|..];
    assert after == before + rows;
    var u := before[id].user;
    forall t | t in rows && t.user != u
      ensures MarksOf(id)(t) == 0
    {
      var v := t.user;
      var mine := OfUser(before, listing, v);
      RowsOfMember(rows, v, t);
      assert BatchWritten(before, after, listing, v, now);
      ExpireRowShape(v, mine, PointsAt(before), Balance(before, v), now);
      var i :| 0 <= i < |mine| && RowsOf(rows, v)[i] == t;
      assert t.marks == Some(mine[i]) && mine[i] in mine;
      OfUserMember(before, listing, v, mine[i]);
    }
    assert BatchWritten(before, after, listing, u, now);
    SumConcat(before, rows, MarksOf(id));
    RowsOfSum(rows, u, MarksOf(id));
    ExpireRowsMark(u, OfUser(before, listing, u), PointsAt(before), Balance(before, u), now, id);
    OfUserOccurrences(before, listing, u, id);
    Occurrences(listing, id);
  }

  /** Per user, a pass removes the listed total or the whole non-negative balance, whichever is less. */
  lemma PassTakes(before: seq<Tx>, after: seq<Tx>, listing: seq<nat>, now: int, u: nat)
    requires Known(before, listing) && ExpiresAll(before, after, listing, now)
    requires forall i :: i in listing ==> PointsAt(before)(i) >= 0
    ensures Balance(after, u) == Balance(before, u)
      - Min(Sum<nat>(OfUser(before, listing, u), PointsAt(before)), Max(0, Balance(before, u)))
  {
    var rows := after[|before|..];
    assert after == before + rows && BatchWritten(before, after, listing, u, now);
    SumConcat(before, rows, PointsOf(u));
    RowsOfSum(rows, u, PointsOf(u));
    forall i | i in OfUser(before, listing, u) ensures PointsAt(before)(i) >= 0 {
      OfUserMember(before, listing, u, i);
    }
    ExpireRowsTotal(u, OfUser(before, listing, u), PointsAt(before), Balance(before, u), now);
  }

  /** The list of a pass that is not overlapped by another: everything that is expirable, once. */
  ghost predicate FreshListing(ledger: seq<Tx>, cutoff: int, listing: seq<nat>) {
    NoRepeats(listing) && forall id: nat :: id in listing <==> Expirable(ledger, cutoff, id)
  }

  lemma FreshListingKnown(ledger: seq<Tx>, cutoff: int, listing: seq<nat>)
    requires FreshListing(ledger, cutoff, listing)
    ensures Known(ledger, listing)
  {
    forall k | 0 <= k < |listing| ensures listing[k] < |ledger| {
      assert listing[k] in listing;
    }
  }

  /** After an undisturbed pass nothing is expirable for the same cutoff: a second pass has nothing to write. */
  lemma SecondPassIsEmpty(before: seq<Tx>, after: seq<Tx>, cutoff: int, listing: seq<nat>, now: int, id: nat)
    requires FreshListing(before, cutoff, listing) && Known(before, listing)
    requires ExpiresAll(before, after, listing, now)
    ensures !Expirable(after, cutoff, id)
  {
    if id < |before| {
      PassMarksListed(before, after, listing, now, id);
      MarkersPositive(before, id);
      MarkersPositive(after, id);
      assert after[id] == before[id];
      assert id in listing <==> Expirable(before, cutoff, id);
    } else if id < |after| {
      var rows := after[|before|..];
      assert rows[id - |before|] == after[id];
      var u := after[id].user;
      assert BatchWritten(before, after, listing, u, now);
      RowsOfMember(rows, u, after[id]);
      ExpireRowShape(u, OfUser(before, listing, u), PointsAt(before), Balance(before, u), now);
    }
  }

  // ----- grouping by user -----

  lemma {:induction false} RowsOfConcat(a: seq<Tx>, b: seq<Tx>, u: nat)
    ensures RowsOf(a + b, u) == RowsOf(a, u) + RowsOf(b, u)
  {
    if b == [] {
      assert a + b == a && RowsOf(a, u) + [] == RowsOf(a, u);
    } else {
      var k := |b| - 1;
      assert (a + b)[..|a + b| - 1] == a + b[..k];
      RowsOfConcat(a, b[..k], u);
    }
  }

  lemma {:induction false} RowsOfSelf(rows: seq<Tx>, u: nat)
    requires forall i :: 0 <= i < |rows| ==> rows[i].user == u
    ensures RowsOf(rows, u) == rows
  {
    if rows != [] {
      var front := rows[..|rows| - 1];
      RowsOfSelf(front, u);
      assert rows == front + [rows[|rows| - 1]];
    }
  }

  lemma {:induction false} RowsOfOthers(rows: seq<Tx>, v: nat)
    requires forall i :: 0 <= i < |rows| ==> rows[i].user != v
    ensures RowsOf(rows, v) == []
  {
    if rows != [] {
      RowsOfOthers(rows[..|rows| - 1], v);
    }
  }

  lemma {:induction false} ExpireRowsCongruent(
    u: nat, ids: seq<nat>, p: nat -> int, q: nat -> int, balance: int, now: int
  )
    requires forall k :: 0 <= k < |ids| ==> p(ids[k]) == q(ids[k])
    ensures ExpireRows(u, ids, p, balance, now) == ExpireRows(u, ids, q, balance, now)
  {
    if ids != [] {
      ExpireRowsCongruent(u, ids[..|ids| - 1], p, q, balance, now);
    }
  }

  lemma UntouchedBalance(before: seq<Tx>, after: seq<Tx>, u: nat)
    requires before <= after && RowsOf(after[|before|..], u) == []
    ensures Balance(after, u) == Balance(before, u)
  {
    var added := after[|before|..];
    assert after == before + added;
    RowsOfSum(added, u, PointsOf(u));
    SumConcat(before, added, PointsOf(u));
  }

  /** A batch of one user inside a pass: no other user's rows change, and only this user's are added. */
  lemma BatchInPass(before: seq<Tx>, mid: seq<Tx>, after: seq<Tx>, u: nat, ids: seq<nat>, now: int)
    requires before <= mid && Known(before, ids) && RowsOf(mid[|before|..], u) == []
    requires after == mid + ExpireRows(u, ids, PointsAt(mid), Balance(mid, u), now)
    ensures before <= after
    ensures RowsOf(after[|before|..], u) == ExpireRows(u, ids, PointsAt(before), Balance(before, u), now)
    ensures forall v: nat :: v != u ==> RowsOf(after[|before|..], v) == RowsOf(mid[|before|..], v)
  {
    var added := mid[|before|..];
    var rows := ExpireRows(u, ids, PointsAt(before), Balance(before, u), now);
    SameBatch(before, mid, u, ids, now);
    assert after[|before|..] == added + rows;
    ExpireRowShape(u, ids, PointsAt(before), Balance(before, u), now);
    AddedRows(added, rows, u);
  }

  /** Rows of other users change nothing for this user's batch. */
  lemma SameBatch(before: seq<Tx>, mid: seq<Tx>, u: nat, ids: seq<nat>, now: int)
    requires before <= mid && Known(before, ids) && RowsOf(mid[|before|..], u) == []
    ensures ExpireRows(u, ids, PointsAt(mid), Balance(mid, u), now)
      == ExpireRows(u, ids, PointsAt(before), Balance(before, u), now)
  {
    UntouchedBalance(before, mid, u);
    assert forall k :: 0 <= k < |ids| ==> mid[ids[k]] == before[ids[k]];
    ExpireRowsCongruent(u, ids, PointsAt(mid), PointsAt(before), Balance(before, u), now);
  }

  lemma AddedRows(added: seq<Tx>, rows: seq<Tx>, u: nat)
    requires RowsOf(added, u) == [] && forall t :: t in rows ==> t.user == u
    ensures forall v: nat :: RowsOf(added + rows, v) == if u == v then rows else RowsOf(added, v)
  {
    forall v: nat ensures RowsOf(added + rows, v) == if u == v then rows else RowsOf(added, v) {
      RowsOfConcat(added, rows, v);
      if u == v {
        RowsOfSelf(rows, u);
      } else {
        RowsOfOthers(rows, v);
        assert RowsOf(added, v) + [] == RowsOf(added, v);
      }
    }
  }

  /** What a pass has written once the users in `done` have been processed. */
  ghost predicate PassSoFar(before: seq<Tx>, after: seq<Tx>, listing: seq<nat>, done: seq<nat>, now: int)
    requires Known(before, listing)
  {
    before <= after &&
    forall u: nat ::
      if u in done then BatchWritten(before, after, listing, u, now) else RowsOf(after[|before|..], u) == []
  }

  lemma PassStep(
    before: seq<Tx>, mid: seq<Tx>, after: seq<Tx>, listing: seq<nat>, done: seq<nat>, u: nat, now: int
  )
    requires Known(before, listing) && u !in done && PassSoFar(before, mid, listing, done, now)
    requires after == mid + ExpireRows(u, OfUser(before, listing, u), PointsAt(mid), Balance(mid, u), now)
    ensures PassSoFar(before, after, listing, done + [u], now)
  {
    BatchInPass(before, mid, after, u, OfUser(before, listing, u), now);
    forall v: nat
      ensures if v in done + [u] then BatchWritten(before, after, listing, v, now)
              else RowsOf(after[|before|..], v) == []
    {
      assert if v in done then BatchWritten(before, mid, listing, v, now) else RowsOf(mid[|before|..], v) == [];
    }
  }

  /** How many listed ids belong to the given users. */
  function CountIn(ledger: seq<Tx>, ids: seq<nat>, done: seq<nat>): nat
    requires Known(ledger, ids)
  {
    if ids == [] then 0 else
      var k := |ids| - 1;
      CountIn(ledger, ids[..k], done) + if ledger[ids[k]].user in done then 1 else 0
  }

  lemma {:induction false} CountInMore(ledger: seq<Tx>, ids: seq<nat>, done: seq<nat>, u: nat)
    requires Known(ledger, ids) && u !in done
    ensures CountIn(ledger, ids, done + [u]) == CountIn(ledger, ids, done) + |OfUser(ledger, ids, u)|
  {
    if ids != [] {
      CountInMore(ledger, ids[..|ids| - 1], done, u);
    }
  }

  lemma {:induction false} CountInAll(ledger: seq<Tx>, ids: seq<nat>, done: seq<nat>)
    requires Known(ledger, ids)
    requires forall k :: 0 <= k < |ids| ==> ledger[ids[k]].user in done
    ensures CountIn(ledger, ids, done) == |ids|
  {
    if ids != [] {
      CountInAll(ledger, ids[..|ids| - 1], done);
    }
  }

  lemma {:induction false} CountInNone(ledger: seq<Tx>, ids: seq<nat>)
    requires Known(ledger, ids)
    ensures CountIn(ledger, ids, []) == 0
  {
    if ids != [] {
      CountInNone(ledger, ids[..|ids| - 1]);
    }
  }

  /** Once every user with a listed transaction has been processed, the pass is complete. */
  lemma PassComplete(before: seq<Tx>, after: seq<Tx>, listing: seq<nat>, done: seq<nat>, now: int)
    requires Known(before, listing) && PassSoFar(before, after, listing, done, now)
    requires forall u: nat :: u !in done ==> OfUser(before, listing, u) == []
    ensures ExpiresAll(before, after, listing, now) && CountIn(before, listing, done) == |listing|
  {
    forall k | 0 <= k < |listing| ensures before[listing[k]].user in done {
      OfUserMember(before, listing, before[listing[k]].user, listing[k]);
    }
    CountInAll(before, listing, done);
    forall u: nat ensures BatchWritten(before, after, listing, u, now) {
      assert if u in done then BatchWritten(before, after, listing, u, now) else RowsOf(after[|before|..], u) == [];
    }
  }

  // ----- a pass with other writers in between -----

  /**
   * The ledger after the batches of the given users. Before the k-th user's lock the other writers have
   * appended `meanwhile(k)`; the list is the one read at the start.
   */
  function PassLedger(
    before: seq<Tx>, listing: seq<nat>, users: seq<nat>, meanwhile: nat -> seq<Tx>, now: int
  ): (after: seq<Tx>)
    requires Known(before, listing)
    ensures before <= after
  {
    if users == [] then before else
      var k := |users| - 1;
      var locked := PassLedger(before, listing, users[..k], meanwhile, now) + meanwhile(k);
      locked + ExpireRows(users[k], OfUser(before, listing, users[k]), PointsAt(locked), Balance(locked, users[k]), now)
  }

  /** EXPIRE rows of the transaction that other writers append during the pass. */
  function ForeignMarks(meanwhile: nat -> seq<Tx>, n: nat, id: nat): int {
    if n == 0 then 0 else ForeignMarks(meanwhile, n - 1, id) + Markers(meanwhile(n - 1), id)
  }

  /** Whatever is committed in between, the pass adds one marker to each listed transaction of its users. */
  lemma {:induction false} PassLedgerMarks(
    before: seq<Tx>, listing: seq<nat>, users: seq<nat>, meanwhile: nat -> seq<Tx>, now: int, id: nat
  )
    requires Known(before, listing) && NoRepeats(listing) && NoRepeats(users) && id < |before|
    ensures Markers(PassLedger(before, listing, users, meanwhile, now), id)
      == Markers(before, id) + ForeignMarks(meanwhile, |users|, id)
         + if id in listing && before[id].user in users then 1 else 0
  {
    if users != [] {
      var k := |users| - 1;
      var front := users[..k];
      PassLedgerMarks(before, listing, front, meanwhile, now, id);
      var start := PassLedger(before, listing, front, meanwhile, now);
      SumConcat(start, meanwhile(k), MarksOf(id));
      BatchMarks(before, start + meanwhile(k), listing, users[k], now, id);
      LastUser(users, before[id].user);
    }
  }

  lemma LastUser(users: seq<nat>, u: nat)
    requires users != [] && NoRepeats(users)
    ensures u in users <==> u in users[..|users| - 1] || u == users[|users| - 1]
    ensures users[|users| - 1] !in users[..|users| - 1]
  {
  }

  /** One more user's turn. */
  lemma PassLedgerNext(
    before: seq<Tx>, listing: seq<nat>, order: seq<nat>, k: nat, meanwhile: nat -> seq<Tx>, now: int
  )
    requires Known(before, listing) && k < |order| && NoRepeats(order)
    ensures
      var u := order[k];
      var locked := PassLedger(before, listing, order[..k], meanwhile, now) + meanwhile(k);
      PassLedger(before, listing, order[..k + 1], meanwhile, now)
        == locked + ExpireRows(u, OfUser(before, listing, u), PointsAt(locked), Balance(locked, u), now)
    ensures CountIn(before, listing, order[..k + 1])
      == CountIn(before, listing, order[..k]) + |OfUser(before, listing, order[k])|
  {
    assert order[..k + 1][..k] == order[..k] && order[..k + 1] == order[..k] + [order[k]];
    CountInMore(before, listing, order[..k], order[k]);
  }

  lemma BatchMarks(before: seq<Tx>, locked: seq<Tx>, listing: seq<nat>, u: nat, now: int, id: nat)
    requires Known(before, listing) && NoRepeats(listing) && before <= locked && id < |before|
    ensures
      var rows := ExpireRows(u, OfUser(before, listing, u), PointsAt(locked), Balance(locked, u), now);
      Markers(locked + rows, id) == Markers(locked, id) + if id in listing && before[id].user == u then 1 else 0
  {
    var ids := OfUser(before, listing, u);
    var rows := ExpireRows(u, ids, PointsAt(locked), Balance(locked, u), now);
    SumConcat(locked, rows, MarksOf(id));
    ExpireRowsMark(u, ids, PointsAt(locked), Balance(locked, u), now, id);
    OfUserOccurrences(before, listing, u, id);
    Occurrences(listing, id);
  }

  /** Each batch takes the listed total or the balance under its own lock, whichever is less. */
  lemma PassLedgerTakes(
    before: seq<Tx>, listing: seq<nat>, users: seq<nat>, meanwhile: nat -> seq<Tx>, now: int
  )
    requires Known(before, listing) && users != []
    requires forall i :: i in listing ==> PointsAt(before)(i) >= 0
    ensures
      var k := |users| - 1;
      var locked := PassLedger(before, listing, users[..k], meanwhile, now) + meanwhile(k);
      Balance(PassLedger(before, listing, users, meanwhile, now), users[k]) == Balance(locked, users[k])
        - Min(Sum<nat>(OfUser(before, listing, users[k]), PointsAt(before)), Max(0, Balance(locked, users[k])))
  {
    var k := |users| - 1;
    var locked := PassLedger(before, listing, users[..k], meanwhile, now) + meanwhile(k);
    BatchTakes(before, locked, listing, users[k], now);
  }

  lemma BatchTakes(before: seq<Tx>, locked: seq<Tx>, listing: seq<nat>, u: nat, now: int)
    requires Known(before, listing) && before <= locked
    requires forall i :: i in listing ==> PointsAt(before)(i) >= 0
    ensures
      var ids := OfUser(before, listing, u);
      Balance(locked + ExpireRows(u, ids, PointsAt(locked), Balance(locked, u), now), u)
        == Balance(locked, u) - Min(Sum<nat>(ids, PointsAt(before)), Max(0, Balance(locked, u)))
  {
    var ids := OfUser(before, listing, u);
    var rows := ExpireRows(u, ids, PointsAt(locked), Balance(locked, u), now);
    forall i | i in ids ensures PointsAt(locked)(i) == PointsAt(before)(i) >= 0 {
      OfUserMember(before, listing, u, i);
    }
    SumCongruent<nat>(ids, PointsAt(locked), PointsAt(before));
    ExpireRowsTotal(u, ids, PointsAt(locked), Balance(locked, u), now);
    SumConcat(locked, rows, PointsOf(u));
  }

  /** With nothing in between, this is the undisturbed pass. */
  lemma {:induction false} PassLedgerAlone(
    before: seq<Tx>, listing: seq<nat>, users: seq<nat>, meanwhile: nat -> seq<Tx>, now: int
  )
    requires Known(before, listing) && NoRepeats(users) && forall k :: meanwhile(k) == []
    ensures PassSoFar(before, PassLedger(before, listing, users, meanwhile, now), listing, users, now)
  {
    if users == [] {
      assert before[|before|..] == [];
    } else {
      var k := |users| - 1;
      var front := users[..k];
      PassLedgerAlone(before, listing, front, meanwhile, now);
      var start := PassLedger(before, listing, front, meanwhile, now);
      assert start + meanwhile(k) == start;
      assert users == front + [users[k]] && users[k] !in front;
      PassStep(before, start, PassLedger(before, listing, users, meanwhile, now), listing, front, users[k], now);
    }
  }

  /** A marked transaction is not expirable in any continuation of the ledger, for any cutoff. */
  lemma MarkedForGood(ledger: seq<Tx>, later: seq<Tx>, cutoff: int, id: nat)
    requires ledger <= later && Marked(ledger, id)
    ensures Marked(later, id) && !Expirable(later, cutoff, id)
  {
    var i :| 0 <= i < |ledger| && ledger[i].kind == Expire && ledger[i].marks == Some(id);
    assert later[i] == ledger[i];
  }
}
