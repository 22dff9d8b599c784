/** Clearing cache keys by prefix: scans in pages, unlinks in batches, counts per prefix. */
module PrefixClearing {
  import opened Folds

  // ----- patterns -----

  /** The pattern "prefix*". */
  predicate StartsWith(prefix: string, key: string) {
    prefix <= key
  }

  /** The pattern "*:prefix*". */
  predicate AfterColon(prefix: string, key: string) {
    exists i :: 0 <= i <= |key| && ":" + prefix <= key[i..]
  }

  predicate Matches(prefix: string, key: string) {
    StartsWith(prefix, key) || AfterColon(prefix, key)
  }

  predicate ByPattern(prefix: string, tenant: bool, key: string) {
    if tenant then AfterColon(prefix, key) else StartsWith(prefix, key)
  }

  /** Some listed prefix matches the key. */
  predicate MatchesAny(prefixes: seq<string>, key: string) {
    exists i :: 0 <= i < |prefixes| && Matches(prefixes[i], key)
  }

  function Remaining(keys: set<string>, prefixes: seq<string>): set<string> {
    set k | k in keys && !MatchesAny(prefixes, k)
  }

  /** What a prefix removes from the keys that are there when its turn comes. */
  function Removes(keys: set<string>, prefix: string): set<string> {
    set k | k in keys && Matches(prefix, k)
  }

  predicate Distinct(prefixes: seq<string>) {
    forall i, j :: 0 <= i < j < |prefixes| ==> prefixes[i] != prefixes[j]
  }

  function SumCounts(results: map<string, int>, prefixes: seq<string>): int {
    if prefixes == [] then 0 else
      var k := |prefixes| - 1;
      SumCounts(results, prefixes[..k]) + if prefixes[k] in results then results[prefixes[k]] else 0
  }

  /** The counts after clearing the prefixes in turn; a repeated prefix overwrites its earlier count. */
  function Counts(keys: set<string>, prefixes: seq<string>): map<string, int> {
    if prefixes == [] then map[] else
      var k := |prefixes| - 1;
      Counts(keys, prefixes[..k])[prefixes[k] := |Removes(Remaining(keys, prefixes[..k]), prefixes[k])|]
  }

  // ----- the cache -----

  /** What a scan meets, in order, given the keys that are there when it starts. */
  type Scan = set<string> -> seq<string>

  /** A scan meets every key that is there. It may repeat keys, and it may name others. */
  ghost predicate Covers(scan: Scan) {
    forall keys: set<string>, k :: k in keys ==> k in scan(keys)
  }

  class CacheClient {
    var keys: set<string>

    constructor (initial: set<string>)
      ensures keys == initial
    {
      keys := initial;
    }

    /** UNLINK: removes the named keys and counts those that were there. */
    method Unlink(batch: seq<string>) returns (removed: nat)
      modifies this
      ensures keys == old(keys) - (set k | k in batch)
      ensures removed == |old(keys)| - |keys|
    {
      removed := 0;
      for i := 0 to |batch|
        invariant keys == old(keys) - (set k | k in batch[..i])
        invariant removed == |old(keys)| - |keys|
      {
        if batch[i] in keys {
          keys := keys - {batch[i]};
          removed := removed + 1;
        }
      }
      assert batch[..|batch|] == batch;
    }

    /**
     * One scan with its batches. `walk` is what the scan meets: it covers every key that is there, and it may
     * repeat keys or name keys that have been unlinked meanwhile.
     */
    method ClearPattern(prefix: string, tenant: bool, walk: seq<string>, batchSize: nat) returns (deleted: nat)
      requires batchSize > 0 && forall k :: k in keys ==> k in walk
      modifies this
      ensures keys == set k | k in old(keys) && !ByPattern(prefix, tenant, k)
      ensures deleted == |old(keys)| - |keys|
    {
      deleted := 0;
      var batch: seq<string> := [];
      for i := 0 to |walk|
        invariant |batch| < batchSize
        invariant keys <= old(keys) && deleted == |old(keys)| - |keys|
        invariant forall k :: k in batch ==> ByPattern(prefix, tenant, k)
        invariant forall k :: k in old(keys) && k !in keys ==> ByPattern(prefix, tenant, k)
        invariant forall k :: k in walk[..i] && k in keys && ByPattern(prefix, tenant, k) ==> k in batch
      {
        if ByPattern(prefix, tenant, walk[i]) {
          batch := batch + [walk[i]];
          if |batch| >= batchSize {
            var n := Unlink(batch);
            deleted := deleted + n;
            batch := [];
          }
        }
      }
      assert walk[..|walk|] == walk;
      if batch != [] {
        var n := Unlink(batch);
        deleted := deleted + n;
      }
    }

    /** The two layouts of a prefix, each with its own scan of the keys that are there when it starts. */
    method ClearPrefix(prefix: string, direct: Scan, scoped: Scan, batchSize: nat) returns (deleted: nat)
      requires batchSize > 0 && Covers(direct) && Covers(scoped)
      modifies this
      ensures keys == old(keys) - Removes(old(keys), prefix)
      ensures deleted == |Removes(old(keys), prefix)|
    {
      ghost var before := keys;
      var plain := ClearPattern(prefix, false, direct(keys), batchSize);
      var tenant := ClearPattern(prefix, true, scoped(keys), batchSize);
      deleted := plain + tenant;
      assert keys == before - Removes(before, prefix);
      assert Removes(before, prefix) <= before;
    }

    /** `scans(i)` is the i-th scan; there are two for each prefix. */
    method ClearByPrefixes(prefixes: seq<string>, scans: nat -> Scan, batchSize: nat)
      returns (results: map<string, int>)
      requires batchSize > 0 && forall i :: Covers(scans(i))
      modifies this
      ensures forall k :: k in keys <==>
        k in old(keys) &&
        (forall i :: 0 <= i < |prefixes| ==> !(prefixes[i] <= k)) &&
        (forall i, c :: 0 <= i < |prefixes| && 0 <= c < |k| && k[c] == ':' ==> !(prefixes[i] <= k[c + 1..]))
      ensures keys == Remaining(old(keys), prefixes)
      ensures results == Counts(old(keys), prefixes)
    {
      results := map[];
      assert prefixes[..0] == [];
      for p := 0 to |prefixes|
        invariant keys == Remaining(old(keys), prefixes[..p])
        invariant results == Counts(old(keys), prefixes[..p])
      {
        RemainingStep(old(keys), prefixes, p);
        CountsStep(old(keys), prefixes, p);
        var deleted := ClearPrefix(prefixes[p], scans(2 * p), scans(2 * p + 1), batchSize);
        results := results[prefixes[p] := deleted];
      }
      assert prefixes[..|prefixes|] == prefixes;
      forall k
        ensures k in keys <==>
          k in old(keys) &&
          (forall i :: 0 <= i < |prefixes| ==> !(prefixes[i] <= k)) &&
          (forall i, c :: 0 <= i < |prefixes| && 0 <= c < |k| && k[c] == ':' ==> !(prefixes[i] <= k[c + 1..]))
      {
        RemainsExactly(old(keys), prefixes, k);
      }
    }
  }

  /** A key matches a prefix when it starts with it, or when what follows one of its colons does. */
  lemma MatchesIff(prefix: string, key: string)
    ensures Matches(prefix, key) <==>
      prefix <= key || exists c :: 0 <= c < |key| && key[c] == ':' && prefix <= key[c + 1..]
  {
    if AfterColon(prefix, key) {
      var i :| 0 <= i <= |key| && ":" + prefix <= key[i..];
      ColonPrefix(prefix, key, i);
      assert key[i] == ':' && prefix <= key[i + 1..];
    }
    if c :| 0 <= c < |key| && key[c] == ':' && prefix <= key[c + 1..] {
      ColonPrefix(prefix, key, c);
      assert ":" + prefix <= key[c..];
    }
  }

  /** Which keys remain: those that neither start with a prefix nor have one behind a colon. */
  lemma RemainsExactly(keys: set<string>, prefixes: seq<string>, key: string)
    ensures key in Remaining(keys, prefixes) <==>
      key in keys &&
      (forall i :: 0 <= i < |prefixes| ==> !(prefixes[i] <= key)) &&
      (forall i, c :: 0 <= i < |prefixes| && 0 <= c < |key| && key[c] == ':' ==> !(prefixes[i] <= key[c + 1..]))
  {
    forall i | 0 <= i < |prefixes|
      ensures Matches(prefixes[i], key) <==>
        prefixes[i] <= key || exists c :: 0 <= c < |key| && key[c] == ':' && prefixes[i] <= key[c + 1..]
    {
      MatchesIff(prefixes[i], key);
    }
  }

  lemma RemainingStep(keys: set<string>, prefixes: seq<string>, p: nat)
    requires p < |prefixes|
    ensures Remaining(keys, prefixes[..p + 1])
      == Remaining(keys, prefixes[..p]) - Removes(Remaining(keys, prefixes[..p]), prefixes[p])
  {
    forall k ensures MatchesAny(prefixes[..p + 1], k) <==> MatchesAny(prefixes[..p], k) || Matches(prefixes[p], k) {
      if MatchesAny(prefixes[..p], k) {
        var i :| 0 <= i < p && Matches(prefixes[..p][i], k);
        assert Matches(prefixes[..p + 1][i], k);
      }
      if Matches(prefixes[p], k) {
        assert Matches(prefixes[..p + 1][p], k);
      }
    }
  }

  lemma CountsStep(keys: set<string>, prefixes: seq<string>, p: nat)
    requires p < |prefixes|
    ensures Counts(keys, prefixes[..p + 1])
      == Counts(keys, prefixes[..p])[prefixes[p] := |Removes(Remaining(keys, prefixes[..p]), prefixes[p])|]
  {
    assert prefixes[..p + 1][..p] == prefixes[..p];
  }

  // ----- results -----

  /** The count of a prefix is what it matched and no prefix before its last occurrence did. */
  lemma {:induction false} CountOf(keys: set<string>, prefixes: seq<string>, p: nat)
    requires p < |prefixes| && forall q :: p < q < |prefixes| ==> prefixes[q] != prefixes[p]
    ensures prefixes[p] in Counts(keys, prefixes)
    ensures Counts(keys, prefixes)[prefixes[p]]
      == |set k | k in keys && Matches(prefixes[p], k) && !MatchesAny(prefixes[..p], k)|
  {
    var n := |prefixes| - 1;
    if p < n {
      CountOf(keys, prefixes[..n], p);
      assert prefixes[..n][..p] == prefixes[..p];
    } else {
      assert Removes(Remaining(keys, prefixes[..p]), prefixes[p])
          == set k | k in keys && Matches(prefixes[p], k) && !MatchesAny(prefixes[..p], k);
    }
  }

  lemma {:induction false} SumFrame(results: map<string, int>, prefixes: seq<string>, p: string, n: int)
    requires p !in prefixes
    ensures SumCounts(results[p := n], prefixes) == SumCounts(results, prefixes)
  {
    if prefixes != [] {
      assert prefixes[|prefixes| - 1] in prefixes;
      SumFrame(results, prefixes[..|prefixes| - 1], p, n);
    }
  }

  /** Conservation: with distinct prefixes the reported counts add up to the number of removed keys. */
  lemma {:induction false} CountsAddUp(keys: set<string>, prefixes: seq<string>)
    requires Distinct(prefixes)
    ensures SumCounts(Counts(keys, prefixes), prefixes) == |keys| - |Remaining(keys, prefixes)|
  {
    if prefixes == [] {
      assert Remaining(keys, []) == keys;
    } else {
      var n := |prefixes| - 1;
      var front := prefixes[..n];
      CountsAddUp(keys, front);
      assert prefixes[n] !in front;
      SumFrame(Counts(keys, front), front, prefixes[n], |Removes(Remaining(keys, front), prefixes[n])|);
      RemainingStep(keys, prefixes, n);
      assert prefixes[..n + 1] == prefixes;
      assert Removes(Remaining(keys, front), prefixes[n]) <= Remaining(keys, front);
    }
  }

  // ----- repeated prefixes -----

  function CountAt(results: map<string, int>): string -> int {
    (p: string) => if p in results then results[p] else 0
  }

  /** The sum of the reported counts. */
  ghost function Total(results: map<string, int>): int {
    SumOver(results.Keys, CountAt(results))
  }

  lemma TotalUpdate(results: map<string, int>, p: string, n: int)
    ensures Total(results[p := n]) == Total(results) - CountAt(results)(p) + n
  {
    var after := results[p := n];
    SumOverRemove(after.Keys, p, CountAt(after));
    assert after.Keys - {p} == results.Keys - {p};
    SumOverCongruent(results.Keys - {p}, CountAt(after), CountAt(results));
    if p in results {
      SumOverRemove(results.Keys, p, CountAt(results));
    } else {
      assert results.Keys - {p} == results.Keys;
    }
  }

  /** The counts that a later occurrence of the same prefix overwrites. */
  function Overwritten(keys: set<string>, prefixes: seq<string>): int {
    if prefixes == [] then 0 else
      var k := |prefixes| - 1;
      Overwritten(keys, prefixes[..k]) + CountAt(Counts(keys, prefixes[..k]))(prefixes[k])
  }

  /** Conservation in general: the removed keys are the reported ones and the overwritten ones. */
  lemma {:induction false} RemovedAccounts(keys: set<string>, prefixes: seq<string>)
    ensures |keys| - |Remaining(keys, prefixes)| == Total(Counts(keys, prefixes)) + Overwritten(keys, prefixes)
  {
    if prefixes == [] {
      assert Remaining(keys, []) == keys;
    } else {
      var n := |prefixes| - 1;
      var front := prefixes[..n];
      RemovedAccounts(keys, front);
      TotalUpdate(Counts(keys, front), prefixes[n], |Removes(Remaining(keys, front), prefixes[n])|);
      RemainingStep(keys, prefixes, n);
      assert prefixes[..n + 1] == prefixes;
      assert Removes(Remaining(keys, front), prefixes[n]) <= Remaining(keys, front);
    }
  }

  /** A position whose prefix removes a key in its turn and is listed again later. */
  predicate RemovesAndRepeats(keys: set<string>, prefixes: seq<string>, p: int, q: int) {
    0 <= p < q < |prefixes| && prefixes[p] == prefixes[q] &&
    Removes(Remaining(keys, prefixes[..p]), prefixes[p]) != {}
  }

  /** A count that is not zero was left by a last occurrence that removed something. */
  lemma {:induction false} CountSource(keys: set<string>, prefixes: seq<string>, prefix: string) returns (p: int)
    ensures CountAt(Counts(keys, prefixes))(prefix) >= 0
    ensures CountAt(Counts(keys, prefixes))(prefix) > 0 ==>
      0 <= p < |prefixes| && prefixes[p] == prefix && Removes(Remaining(keys, prefixes[..p]), prefix) != {}
  {
    p := 0;
    if prefixes != [] {
      var n := |prefixes| - 1;
      if prefixes[n] == prefix {
        p := n;
      } else {
        p := CountSource(keys, prefixes[..n], prefix);
        if 0 <= p < n { assert prefixes[..n][..p] == prefixes[..p]; }
      }
    }
  }

  /** Something is overwritten exactly when a prefix that removes a key is listed again. */
  lemma {:induction false} OverwrittenIff(keys: set<string>, prefixes: seq<string>)
    ensures Overwritten(keys, prefixes) >= 0
    ensures Overwritten(keys, prefixes) > 0 <==> exists p, q :: RemovesAndRepeats(keys, prefixes, p, q)
  {
    if prefixes != [] {
      var n := |prefixes| - 1;
      var front := prefixes[..n];
      OverwrittenIff(keys, front);
      var source := CountSource(keys, front, prefixes[n]);
      if Overwritten(keys, front) > 0 {
        var p, q :| RemovesAndRepeats(keys, front, p, q);
        assert front[..p] == prefixes[..p];
        assert RemovesAndRepeats(keys, prefixes, p, q);
      } else if CountAt(Counts(keys, front))(prefixes[n]) > 0 {
        assert front[..source] == prefixes[..source];
        assert RemovesAndRepeats(keys, prefixes, source, n);
      } else {
        forall p, q | RemovesAndRepeats(keys, prefixes, p, q) ensures false {
          assert front[..p] == prefixes[..p];
          if q < n {
            assert RemovesAndRepeats(keys, front, p, q);
          } else {
            FirstRemovalCounts(keys, front, p);
          }
        }
      }
    }
  }

  /** As long as nothing is overwritten, a prefix that removed a key reports a positive count. */
  lemma {:induction false} FirstRemovalCounts(keys: set<string>, prefixes: seq<string>, p: nat)
    requires p < |prefixes| && Removes(Remaining(keys, prefixes[..p]), prefixes[p]) != {}
    requires forall a, b :: !RemovesAndRepeats(keys, prefixes, a, b)
    ensures CountAt(Counts(keys, prefixes))(prefixes[p]) > 0
  {
    forall q | p < q < |prefixes| ensures prefixes[q] != prefixes[p] {
      assert !RemovesAndRepeats(keys, prefixes, p, q);
    }
    CountOf(keys, prefixes, p);
    var k :| k in Removes(Remaining(keys, prefixes[..p]), prefixes[p]);
    assert k in set k | k in keys && Matches(prefixes[p], k) && !MatchesAny(prefixes[..p], k);
  }

  /** The reported counts add up to the removed keys exactly when no prefix that removes a key is listed again. */
  lemma CountsAddUpIff(keys: set<string>, prefixes: seq<string>)
    ensures Total(Counts(keys, prefixes)) == |keys| - |Remaining(keys, prefixes)|
      <==> forall p, q :: !RemovesAndRepeats(keys, prefixes, p, q)
  {
    RemovedAccounts(keys, prefixes);
    OverwrittenIff(keys, prefixes);
  }

  /** A prefix listed twice reports zero: the second pass overwrites the count of the first. */
  lemma RepeatedPrefixReportsZero(keys: set<string>, prefixes: seq<string>, a: nat, b: nat)
    requires a < b < |prefixes| && prefixes[a] == prefixes[b]
    requires forall q :: b < q < |prefixes| ==> prefixes[q] != prefixes[b]
    ensures prefixes[b] in Counts(keys, prefixes) && Counts(keys, prefixes)[prefixes[b]] == 0
  {
    CountOf(keys, prefixes, b);
    forall k | Matches(prefixes[b], k) ensures MatchesAny(prefixes[..b], k) {
      assert Matches(prefixes[..b][a], k);
    }
    assert (set k | k in keys && Matches(prefixes[b], k) && !MatchesAny(prefixes[..b], k)) == {};
  }

  /**
   * The description of the operation promises that only keys whose name starts with a prefix are removed.
   * The code removes one more family, and no other: keys that contain a prefix after some colon, at any depth.
   */
  lemma RemovedBeyondDescriptionIff(keys: set<string>, prefixes: seq<string>, key: string)
    requires key in keys && forall i :: 0 <= i < |prefixes| ==> !StartsWith(prefixes[i], key)
    ensures key !in Remaining(keys, prefixes)
      <==> exists i, c :: 0 <= i < |prefixes| && 0 <= c < |key| && key[c] == ':' && StartsWith(prefixes[i], key[c + 1..])
  {
    forall i, c | 0 <= i < |prefixes| && 0 <= c <= |key|
      ensures ":" + prefixes[i] <= key[c..] <==> c < |key| && key[c] == ':' && StartsWith(prefixes[i], key[c + 1..])
    {
      ColonPrefix(prefixes[i], key, c);
    }
    if key !in Remaining(keys, prefixes) {
      var i :| 0 <= i < |prefixes| && Matches(prefixes[i], key);
      var c :| 0 <= c <= |key| && ":" + prefixes[i] <= key[c..];
      assert key[c] == ':' && StartsWith(prefixes[i], key[c + 1..]);
    }
    if i, c :| 0 <= i < |prefixes| && 0 <= c < |key| && key[c] == ':' && StartsWith(prefixes[i], key[c + 1..]) {
      assert ":" + prefixes[i] <= key[c..];
      assert AfterColon(prefixes[i], key) && Matches(prefixes[i], key);
    }
  }

  lemma ColonPrefix(prefix: string, key: string, c: nat)
    requires c <= |key|
    ensures ":" + prefix <= key[c..] <==> c < |key| && key[c] == ':' && prefix <= key[c + 1..]
  {
    if c < |key| {
      assert key[c..] == [key[c]] + key[c + 1..];
      if ":" + prefix <= key[c..] {
        assert (":" + prefix)[0] == key[c..][0];
        assert (":" + prefix)[1..] == prefix && key[c..][1..] == key[c + 1..];
      }
    }
  }

  /** A key of another service, with the Nuxt prefix as a middle segment, is removed. */
  lemma ForeignKeyRemoved()
    ensures "queue:cache:7" !in Remaining({"queue:cache:7"}, ["cache:"]) && !StartsWith("cache:", "queue:cache:7")
  {
    var key := "queue:cache:7";
    assert key[5..] == ":cache:7";
    assert ":" + "cache:" <= key[5..];
    assert Matches(["cache:"][0], key);
    assert key[0] == 'q';
  }
}
