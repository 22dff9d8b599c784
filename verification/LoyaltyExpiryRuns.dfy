/** Expiry over whole runs, with the other writers interleaved and every list possibly stale. */
module LoyaltyExpiryRuns {
  import opened Folds
  import opened LoyaltyData
  import opened LoyaltySteps
  import opened LoyaltyExpiry
  import opened LoyaltyRuns

  /** How often a step's expiry list names the transaction. */
  function Mentions(a: Action, id: nat): int {
    if a.RunExpire? then Sum<nat>(a.ids, OccurrencesOf(id)) else 0
  }

  function MentionsAlong(acts: seq<Action>, id: nat): int {
    if acts == [] then 0 else Mentions(acts[0], id) + MentionsAlong(acts[1..], id)
  }

  lemma NoNewMarks(l: seq<Tx>, l': seq<Tx>, id: nat)
    requires l <= l' && forall i :: |l| <= i < |l'| ==> l'[i].kind != Expire
    ensures Markers(l', id) == Markers(l, id)
  {
    var rows := l'[|l|..];
    assert l' == l + rows;
    SumConcat(l, rows, MarksOf(id));
    SumZero(rows, MarksOf(id));
  }

  lemma StepMarkers(env: Env, s: Sys, a: Action, id: nat)
    requires OwnersExist(s.store, env.orders) && Enabled(env, s, a)
    ensures Markers(Apply(env, s, a).store.ledger, id) == Markers(s.store.ledger, id) + Mentions(a, id)
  {
    var l, l' := s.store.ledger, Apply(env, s, a).store.ledger;
    match a
    case RunExpire(u, ids, now) =>
      SumConcat(l, ExpireRows(u, ids, PointsAt(l), Balance(l, u), now), MarksOf(id));
      ExpireRowsMark(u, ids, PointsAt(l), Balance(l, u), now, id);
    case RunReverse(o, cfg, listing, now) =>
      ReverseWritesAdjusts(env, s.store, o, cfg, listing, now);
      NoNewMarks(l, l', id);
    case _ => NoNewMarks(l, l', id);
  }

  /** The markers of a transaction are those it had and one for each time a list of the run names it. */
  lemma {:induction false} RunMarkers(env: Env, s: Sys, acts: seq<Action>, id: nat)
    requires OwnersExist(s.store, env.orders) && Legal(env, s, acts)
    ensures Markers(Run(env, s, acts).store.ledger, id) == Markers(s.store.ledger, id) + MentionsAlong(acts, id)
    decreases |acts|
  {
    if acts != [] {
      StepMarkers(env, s, acts[0], id);
      ApplyKeepsUsers(env, s, acts[0]);
      RunMarkers(env, Apply(env, s, acts[0]), acts[1..], id);
    }
  }

  // ----- single expiry -----

  /** The list repeats nothing, and nothing on it is marked when its lock is taken. */
  predicate CleanList(s: Sys, a: Action) {
    a.RunExpire? ==> NoRepeats(a.ids) && forall id :: id in a.ids ==> !Marked(s.store.ledger, id)
  }

  ghost predicate CleanLists(env: Env, s: Sys, acts: seq<Action>)
    requires OwnersExist(s.store, env.orders) && Legal(env, s, acts)
    decreases |acts|
  {
    acts == [] ||
    (CleanList(s, acts[0]) &&
     (ApplyKeepsUsers(env, s, acts[0]);
      CleanLists(env, Apply(env, s, acts[0]), acts[1..])))
  }

  lemma StepKeepsSingleMarkersIff(env: Env, s: Sys, a: Action)
    requires OwnersExist(s.store, env.orders) && Enabled(env, s, a) && SingleMarkers(s.store.ledger)
    ensures SingleMarkers(Apply(env, s, a).store.ledger) <==> CleanList(s, a)
  {
    if a.RunExpire? {
      BatchKeepsSingleMarkers(s.store, a.user, a.ids, a.now);
    } else {
      forall id: nat ensures Markers(Apply(env, s, a).store.ledger, id) == Markers(s.store.ledger, id) {
        StepMarkers(env, s, a, id);
      }
    }
  }

  lemma {:induction false} MentionsNonNegative(acts: seq<Action>, id: nat)
    ensures MentionsAlong(acts, id) >= 0
  {
    if acts != [] {
      if acts[0].RunExpire? { Occurrences(acts[0].ids, id); }
      MentionsNonNegative(acts[1..], id);
    }
  }

  lemma DoubleMarkStays(env: Env, s: Sys, acts: seq<Action>)
    requires OwnersExist(s.store, env.orders) && Legal(env, s, acts) && !SingleMarkers(s.store.ledger)
    ensures !SingleMarkers(Run(env, s, acts).store.ledger)
  {
    var id: nat :| Markers(s.store.ledger, id) > 1;
    RunMarkers(env, s, acts, id);
    MentionsNonNegative(acts, id);
  }

  /**
   * Main result: over any run, with every other writer interleaved, no transaction is expired twice if and
   * only if each expiry list was clean when its own lock was taken.
   */
  lemma {:induction false} RunKeepsSingleMarkersIff(env: Env, s: Sys, acts: seq<Action>)
    requires OwnersExist(s.store, env.orders) && Legal(env, s, acts) && SingleMarkers(s.store.ledger)
    ensures SingleMarkers(Run(env, s, acts).store.ledger) <==> CleanLists(env, s, acts)
    decreases |acts|
  {
    if acts != [] {
      var next := Apply(env, s, acts[0]);
      ApplyKeepsUsers(env, s, acts[0]);
      StepKeepsSingleMarkersIff(env, s, acts[0]);
      if CleanList(s, acts[0]) {
        RunKeepsSingleMarkersIff(env, next, acts[1..]);
      } else {
        DoubleMarkStays(env, next, acts[1..]);
      }
    }
  }

  // ----- one pass inside a run -----

  /** The users whose batches the run contains. */
  function BatchUsers(acts: seq<Action>): seq<nat> {
    if acts == [] then []
    else (if acts[0].RunExpire? then [acts[0].user] else []) + BatchUsers(acts[1..])
  }

  /** Every expiry batch of the run belongs to the pass with this list: its user's part, once. */
  predicate OnePass(before: seq<Tx>, listing: seq<nat>, acts: seq<Action>)
    requires Known(before, listing)
  {
    NoRepeats(BatchUsers(acts)) &&
    forall i :: 0 <= i < |acts| && acts[i].RunExpire? ==> acts[i].ids == OfUser(before, listing, acts[i].user)
  }

  lemma OnePassTail(before: seq<Tx>, listing: seq<nat>, acts: seq<Action>)
    requires Known(before, listing) && OnePass(before, listing, acts) && acts != []
    ensures OnePass(before, listing, acts[1..])
    ensures acts[0].RunExpire? ==> acts[0].user !in BatchUsers(acts[1..])
  {
    var users, rest := BatchUsers(acts), BatchUsers(acts[1..]);
    var shift := |users| - |rest|;
    assert forall k :: 0 <= k < |rest| ==> rest[k] == users[k + shift];
    if acts[0].RunExpire? {
      assert users[0] == acts[0].user && users[1..] == rest;
      forall k | 0 <= k < |rest| ensures rest[k] != acts[0].user {
        assert users[1..][k] == users[k + 1];
      }
    }
    forall i | 0 <= i < |acts[1..]| && acts[1..][i].RunExpire?
      ensures acts[1..][i].ids == OfUser(before, listing, acts[1..][i].user)
    {
      assert acts[1..][i] == acts[i + 1];
    }
  }

  /** A pass mentions each listed transaction once, when its user's batch runs. */
  lemma {:induction false} OnePassMentions(before: seq<Tx>, listing: seq<nat>, acts: seq<Action>, id: nat)
    requires Known(before, listing) && OnePass(before, listing, acts) && id < |before|
    ensures MentionsAlong(acts, id)
      == if before[id].user in BatchUsers(acts) then Sum<nat>(listing, OccurrencesOf(id)) else 0
  {
    if acts != [] {
      OnePassTail(before, listing, acts);
      OnePassMentions(before, listing, acts[1..], id);
      if acts[0].RunExpire? {
        OfUserOccurrences(before, listing, acts[0].user, id);
      }
    }
  }

  /**
   * A pass whose batches are interleaved with any other writers: once all its users have had their turn, each
   * listed transaction has exactly one marker more than before and every other as many as before, and from
   * then on no listed transaction is expirable again, in any continuation and for any cutoff.
   */
  lemma InterleavedPass(
    env: Env, s: Sys, cutoff: int, listing: seq<nat>, acts: seq<Action>, id: nat, later: seq<Action>, cutoff': int
  )
    requires OwnersExist(s.store, env.orders) && FreshListing(s.store.ledger, cutoff, listing)
    requires Known(s.store.ledger, listing) && OnePass(s.store.ledger, listing, acts) && Legal(env, s, acts)
    requires forall k :: 0 <= k < |listing| ==> s.store.ledger[listing[k]].user in BatchUsers(acts)
    requires id < |s.store.ledger|
    ensures
      var end := Run(env, s, acts);
      Markers(end.store.ledger, id) == Markers(s.store.ledger, id) + (if id in listing then 1 else 0) &&
      OwnersExist(end.store, env.orders) &&
      (id in listing && Legal(env, end, later) ==>
        OwnersExist(Run(env, end, later).store, env.orders) &&
        !Expirable(Run(env, end, later).store.ledger, cutoff', id))
  {
    var end := Run(env, s, acts);
    RunMarkers(env, s, acts, id);
    OnePassMentions(s.store.ledger, listing, acts, id);
    Occurrences(listing, id);
    RunExtends(env, s, acts);
    if id in listing {
      MarkersPositive(s.store.ledger, id);
      MarkersPositive(end.store.ledger, id);
      if Legal(env, end, later) {
        RunExtends(env, end, later);
        MarkedForGood(end.store.ledger, Run(env, end, later).store.ledger, cutoff', id);
      }
    }
  }

  /** What a second pass with the same cutoff can still find: only rows that were not there at the first. */
  lemma SecondPassFindsOnlyNew(
    env: Env, s: Sys, cutoff: int, listing: seq<nat>, acts: seq<Action>, id: nat
  )
    requires OwnersExist(s.store, env.orders) && FreshListing(s.store.ledger, cutoff, listing)
    requires Known(s.store.ledger, listing) && OnePass(s.store.ledger, listing, acts) && Legal(env, s, acts)
    requires forall k :: 0 <= k < |listing| ==> s.store.ledger[listing[k]].user in BatchUsers(acts)
    ensures
      var l := Run(env, s, acts).store.ledger;
      Expirable(l, cutoff, id) <==> |s.store.ledger| <= id < |l| && ExpirableRow(l[id], cutoff) && !Marked(l, id)
  {
    var l := Run(env, s, acts).store.ledger;
    RunExtends(env, s, acts);
    if id < |s.store.ledger| {
      InterleavedPass(env, s, cutoff, listing, acts, id, [], cutoff);
      MarkersPositive(s.store.ledger, id);
      MarkersPositive(l, id);
      assert l[id] == s.store.ledger[id];
      assert id in listing <==> Expirable(s.store.ledger, cutoff, id);
    }
  }
}
