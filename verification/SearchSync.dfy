/**
 * Agreement between the database, the bag of indexing tasks and the search index.
 * Tasks are delivered at least once, in any order, and re-read the row when they run.
 */
module SearchSync {

  type Key = nat

  /** A database row: what it serializes to, and whether the model's filter lets it be searchable. */
  datatype Row = Row(body: string, qualifies: bool)

  datatype Doc = Doc(id: Key, body: string)

  /** A stray delete names the document "None", which no row has. */
  datatype Task = IndexTask(key: Key) | DeleteTask(key: Key) | StrayDelete

  /** `retired` holds the keys whose rows were deleted: keys are not reused. */
  datatype State = State(db: map<Key, Row>, tasks: multiset<Task>, index: map<Key, Doc>, retired: set<Key>)

  const EMPTY := State(map[], multiset{}, map[], {})

  // ----- effects -----

  /** `accepted`: the engine took the removal of a filtered-out document; a failure there is only logged. */
  function IndexEffect(db: map<Key, Row>, index: map<Key, Doc>, k: Key, accepted: bool): map<Key, Doc> {
    if k !in db then index
    else if !db[k].qualifies then (if accepted then index - {k} else index)
    else index[k := Doc(k, db[k].body)]
  }

  function TaskEffect(db: map<Key, Row>, index: map<Key, Doc>, t: Task, accepted: bool): map<Key, Doc> {
    match t
    case IndexTask(k) => IndexEffect(db, index, k, accepted)
    case DeleteTask(k) => index - {k}
    case StrayDelete => index
  }

  /**
   * What the delete signal enqueues: nothing for an instance that the filter hides as it is in memory, and a
   * stray task when the instance has lost its key by the time of the commit.
   */
  function DeleteTasks(k: Key, instanceQualifies: bool, keyKept: bool): multiset<Task> {
    if !instanceQualifies then multiset{}
    else if keyKept then multiset{DeleteTask(k)}
    else multiset{StrayDelete}
  }

  /** The searchable documents the database calls for. */
  function Searchable(db: map<Key, Row>): map<Key, Doc> {
    map k | k in db && db[k].qualifies :: Doc(k, db[k].body)
  }

  class SearchSystem {
    var db: map<Key, Row>
    var tasks: multiset<Task>
    var index: map<Key, Doc>
    ghost var retired: set<Key>

    ghost function View(): State
      reads this
    {
      State(db, tasks, index, retired)
    }

    constructor ()
      ensures View() == EMPTY
    {
      db, tasks, index, retired := map[], multiset{}, map[], {};
    }

    /** Save a row; the save signal enqueues an index task once the save has committed. */
    method SaveRow(k: Key, row: Row)
      modifies this`db, this`tasks
      ensures View() == Apply(old(View()), Save(k, row))
    {
      db := db[k := row];
      tasks := tasks + multiset{IndexTask(k)};
    }

    /**
     * Delete a row through an instance in memory, which may differ from the row. The signal asks the instance
     * whether it is searchable; its key is read when the transaction commits. The framework clears the key of
     * a deleted instance, so `keyKept` is false when the delete runs inside a larger transaction.
     */
    method DeleteRow(k: Key, instance: Row, keyKept: bool)
      requires k in db
      modifies this`db, this`tasks, this`retired
      ensures View() == Apply(old(View()), Delete(k, instance.qualifies, keyKept))
      ensures DeleteTask(k) in tasks <==> DeleteTask(k) in old(tasks) || (instance.qualifies && keyKept)
    {
      db := db - {k};
      retired := retired + {k};
      if !instance.qualifies {
        return;
      }
      var task := if keyKept then DeleteTask(k) else StrayDelete;
      tasks := tasks + multiset{task};
    }

    /** Run the index task for a key; the result is the reported status. */
    method IndexDocument(k: Key, accepted: bool) returns (status: string)
      modifies this`index
      ensures index == IndexEffect(db, old(index), k, accepted)
      ensures status == "skipped" <==> k !in db
      ensures status == "success" <==> k in Searchable(db)
    {
      if k !in db {
        return "skipped";
      }
      if !db[k].qualifies {
        if accepted {
          index := index - {k};
        }
        return "removed";
      }
      index := index[k := Doc(k, db[k].body)];
      return "success";
    }

    /** Run the delete task for a key; `reports` says whether the engine reports a missing document. */
    method DeleteDocument(k: Key, reports: bool) returns (status: string)
      modifies this`index
      ensures k !in index && forall j :: j != k ==> SameEntry(index, old(index), j)
      ensures status == "skipped" <==> reports && k !in old(index)
      ensures status == "success" <==> !(reports && k !in old(index))
    {
      if k !in index && reports {
        return "skipped";
      }
      index := index - {k};
      return "success";
    }

    /** A worker takes a task from the bag; `keep` leaves it there to be delivered once more. */
    method Deliver(t: Task, keep: bool, accepted: bool)
      requires t in tasks
      modifies this`tasks, this`index
      ensures View() == Apply(old(View()), Work(t, keep, accepted))
    {
      match t {
        case IndexTask(k) => var _ := IndexDocument(k, accepted);
        case DeleteTask(k) =>
          var reports := *;
          var _ := DeleteDocument(k, reports);
          forall j ensures SameEntry(index, old(index) - {k}, j) {
            assert j != k ==> SameEntry(index, old(index), j);
          }
          SameIndex(index, old(index) - {k});
        case StrayDelete =>
      }
      if !keep {
        tasks := tasks - multiset{t};
      }
    }
  }

  /** Both indexes hold the same document under the key, or none. */
  predicate SameEntry(a: map<Key, Doc>, b: map<Key, Doc>, k: Key) {
    (k in a <==> k in b) && (k in a ==> a[k] == b[k])
  }

  lemma SameIndex(a: map<Key, Doc>, b: map<Key, Doc>)
    requires forall k :: SameEntry(a, b, k)
    ensures a == b
  {
    forall k ensures k in a <==> k in b { assert SameEntry(a, b, k); }
    forall k | k in a ensures a[k] == b[k] { assert SameEntry(a, b, k); }
  }

  // ----- steps and runs -----

  datatype Action =
    | Save(key: Key, row: Row)
    | Delete(key: Key, instanceQualifies: bool, keyKept: bool)
    | Work(task: Task, keep: bool, accepted: bool)

  predicate Enabled(s: State, a: Action) {
    match a
    case Save(k, _) => k !in s.retired
    case Delete(k, _, _) => k in s.db
    case Work(t, _, _) => t in s.tasks
  }

  function Apply(s: State, a: Action): State
    requires a.Delete? ==> a.key in s.db
  {
    match a
    case Save(k, row) => s.(db := s.db[k := row], tasks := s.tasks + multiset{IndexTask(k)})
    case Delete(k, qualifies, kept) =>
      s.(db := s.db - {k}, tasks := s.tasks + DeleteTasks(k, qualifies, kept), retired := s.retired + {k})
    case Work(t, keep, accepted) =>
      s.(index := TaskEffect(s.db, s.index, t, accepted), tasks := if keep then s.tasks else s.tasks - multiset{t})
  }

  ghost predicate Legal(s: State, acts: seq<Action>)
    decreases |acts|
  {
    acts == [] || (Enabled(s, acts[0]) && Legal(Apply(s, acts[0]), acts[1..]))
  }

  ghost function Run(s: State, acts: seq<Action>): State
    requires Legal(s, acts)
    decreases |acts|
  {
    if acts == [] then s else Run(Apply(s, acts[0]), acts[1..])
  }

  /** A delete of an indexed row through an instance that is hidden in memory, or that loses its key before the commit. */
  predicate DirtyDelete(s: State, a: Action) {
    a.Delete? && a.key in s.index && !(a.instanceQualifies && a.keyKept)
  }

  /** A removal that the engine refused and nobody retries. */
  predicate SwallowedRemoval(a: Action) {
    a.Work? && a.task.IndexTask? && !a.accepted
  }

  /** The refusal of the last waiting removal of a hidden document: nobody will try again. */
  predicate FinalRefusal(s: State, a: Action) {
    SwallowedRemoval(a) && a.task.key in s.db && !s.db[a.task.key].qualifies && a.task.key in s.index &&
    !a.keep && s.tasks[a.task] == 1
  }

  predicate Touches(a: Action, k: Key) {
    (a.Save? || a.Delete?) && a.key == k
  }

  predicate Untouched(acts: seq<Action>, k: Key) {
    forall i :: 0 <= i < |acts| ==> !Touches(acts[i], k)
  }

  /** A final refusal for the key after which its row is neither saved nor deleted. */
  ghost predicate RefusedForGood(s: State, acts: seq<Action>, k: Key)
    requires Legal(s, acts)
    decreases |acts|
  {
    acts != [] &&
    ((FinalRefusal(s, acts[0]) && acts[0].task.key == k && Untouched(acts[1..], k)) ||
     RefusedForGood(Apply(s, acts[0]), acts[1..], k))
  }

  ghost predicate SomeRefusedForGood(s: State, acts: seq<Action>)
    requires Legal(s, acts)
    decreases |acts|
  {
    acts != [] &&
    ((FinalRefusal(s, acts[0]) && Untouched(acts[1..], acts[0].task.key)) ||
     SomeRefusedForGood(Apply(s, acts[0]), acts[1..]))
  }

  lemma {:induction false} RefusedKey(s: State, acts: seq<Action>) returns (k: Key)
    requires Legal(s, acts)
    ensures SomeRefusedForGood(s, acts) ==> RefusedForGood(s, acts, k)
    decreases |acts|
  {
    k := 0;
    if acts != [] {
      if FinalRefusal(s, acts[0]) && Untouched(acts[1..], acts[0].task.key) {
        k := acts[0].task.key;
      } else {
        k := RefusedKey(Apply(s, acts[0]), acts[1..]);
      }
    }
  }

  lemma {:induction false} RefusedIsSome(s: State, acts: seq<Action>, k: Key)
    requires Legal(s, acts) && RefusedForGood(s, acts, k)
    ensures SomeRefusedForGood(s, acts)
    decreases |acts|
  {
    if !(FinalRefusal(s, acts[0]) && Untouched(acts[1..], acts[0].task.key)) {
      RefusedIsSome(Apply(s, acts[0]), acts[1..], k);
    }
  }

  ghost predicate SomeDirtyDelete(s: State, acts: seq<Action>)
    requires Legal(s, acts)
    decreases |acts|
  {
    acts != [] && (DirtyDelete(s, acts[0]) || SomeDirtyDelete(Apply(s, acts[0]), acts[1..]))
  }

  // ----- the per-key invariant -----

  /** Index and database agree on the key. */
  predicate Agrees(s: State, k: Key) {
    if k in s.db && s.db[k].qualifies then k in s.index && s.index[k] == Doc(k, s.db[k].body) else k !in s.index
  }

  /** A task in the bag will repair the key when it runs. */
  predicate Repairable(s: State, k: Key) {
    if k in s.db then IndexTask(k) in s.tasks else DeleteTask(k) in s.tasks
  }

  predicate KeyInv(s: State, k: Key) {
    (Agrees(s, k) || Repairable(s, k)) &&
    (k in s.db ==> k !in s.retired && DeleteTask(k) !in s.tasks) &&
    (DeleteTask(k) in s.tasks ==> k in s.retired)
  }

  /** A document that nothing will ever remove. */
  predicate Orphan(s: State, k: Key) {
    k !in s.db && k in s.retired && k in s.index && DeleteTask(k) !in s.tasks
  }

  ghost predicate Inv(s: State) {
    forall k: Key :: KeyInv(s, k)
  }

  /** A hidden document whose removal was refused and that no waiting task will try again. */
  predicate Stuck(s: State, k: Key) {
    k in s.db && !s.db[k].qualifies && k in s.index && IndexTask(k) !in s.tasks &&
    k !in s.retired && DeleteTask(k) !in s.tasks
  }

  lemma LostIsNotInvariant(s: State, k: Key)
    ensures Orphan(s, k) || Stuck(s, k) ==> !KeyInv(s, k)
  {
  }

  ghost predicate HasOrphan(s: State) {
    exists k: Key :: Orphan(s, k)
  }

  /** The key is in order, or its document is lost to the tasks in one of two ways. */
  predicate Tracked(s: State, k: Key) {
    KeyInv(s, k) || Orphan(s, k) || Stuck(s, k)
  }

  predicate FinalRefusalOf(s: State, a: Action, k: Key) {
    FinalRefusal(s, a) && a.task.key == k
  }

  lemma SaveOnKey(s: State, j: Key, row: Row, k: Key)
    requires j !in s.retired && Tracked(s, k)
    ensures Tracked(Apply(s, Save(j, row)), k)
    ensures Orphan(Apply(s, Save(j, row)), k) <==> Orphan(s, k)
    ensures Stuck(Apply(s, Save(j, row)), k) <==> Stuck(s, k) && j != k
  {
    var s' := Apply(s, Save(j, row));
    assert IndexTask(j) in s'.tasks;
    assert j != k ==> (IndexTask(k) in s.tasks <==> IndexTask(k) in s'.tasks);
    assert DeleteTask(k) in s'.tasks <==> DeleteTask(k) in s.tasks;
  }

  lemma DeleteOnKey(s: State, a: Action, k: Key)
    requires a.Delete? && a.key in s.db && Tracked(s, k)
    ensures Tracked(Apply(s, a), k)
    ensures Orphan(Apply(s, a), k) <==> Orphan(s, k) || (DirtyDelete(s, a) && a.key == k)
    ensures Stuck(Apply(s, a), k) <==> Stuck(s, k) && a.key != k
  {
    var s' := Apply(s, a);
    assert DeleteTask(k) in s'.tasks <==>
      DeleteTask(k) in s.tasks || (a.key == k && a.instanceQualifies && a.keyKept);
    assert IndexTask(k) in s'.tasks <==> IndexTask(k) in s.tasks;
  }

  /** What a delivery does to the bag. */
  lemma WorkOnBag(s: State, t: Task, keep: bool, accepted: bool, x: Task)
    requires t in s.tasks
    ensures x in Apply(s, Work(t, keep, accepted)).tasks <==> x in s.tasks && (x != t || keep || s.tasks[t] > 1)
  {
  }

  lemma WorkOnOtherKey(s: State, t: Task, keep: bool, accepted: bool, k: Key)
    requires t in s.tasks && Tracked(s, k) && t != IndexTask(k) && t != DeleteTask(k)
    ensures
      var s' := Apply(s, Work(t, keep, accepted));
      Tracked(s', k) && (Orphan(s', k) <==> Orphan(s, k)) && (Stuck(s', k) <==> Stuck(s, k))
  {
    WorkOnBag(s, t, keep, accepted, IndexTask(k));
    WorkOnBag(s, t, keep, accepted, DeleteTask(k));
    assert SameEntry(Apply(s, Work(t, keep, accepted)).index, s.index, k);
  }

  lemma WorkOnKey(s: State, t: Task, keep: bool, accepted: bool, k: Key)
    requires t in s.tasks && Tracked(s, k)
    ensures
      var a := Work(t, keep, accepted);
      Tracked(Apply(s, a), k) && (Orphan(Apply(s, a), k) <==> Orphan(s, k)) &&
      (Stuck(Apply(s, a), k) <==> Stuck(s, k) || FinalRefusalOf(s, a, k))
  {
    if t == IndexTask(k) || t == DeleteTask(k) {
      WorkOnBag(s, t, keep, accepted, IndexTask(k));
      WorkOnBag(s, t, keep, accepted, DeleteTask(k));
    } else {
      WorkOnOtherKey(s, t, keep, accepted, k);
    }
  }

  /**
   * Every step keeps each key in order or lost. A document is lost for ever exactly by a dirty delete; it is
   * stuck from the last refused removal of its row until the row is saved or deleted again.
   */
  lemma StepOnKey(s: State, a: Action, k: Key)
    requires Enabled(s, a) && Tracked(s, k)
    ensures Tracked(Apply(s, a), k)
    ensures Orphan(Apply(s, a), k) <==> Orphan(s, k) || (DirtyDelete(s, a) && a.key == k)
    ensures Stuck(Apply(s, a), k) <==> (Stuck(s, k) && !Touches(a, k)) || FinalRefusalOf(s, a, k)
  {
    match a
    case Save(j, row) => SaveOnKey(s, j, row, k);
    case Delete(_, _, _) => DeleteOnKey(s, a, k);
    case Work(t, keep, accepted) => WorkOnKey(s, t, keep, accepted, k);
  }

  ghost predicate AllTracked(s: State) {
    forall k: Key :: Tracked(s, k)
  }

  lemma StepKeepsTracked(s: State, a: Action)
    requires AllTracked(s) && Enabled(s, a)
    ensures AllTracked(Apply(s, a))
    ensures HasOrphan(Apply(s, a)) <==> HasOrphan(s) || DirtyDelete(s, a)
  {
    forall k: Key
      ensures Tracked(Apply(s, a), k)
      ensures Orphan(s, k) ==> Orphan(Apply(s, a), k)
      ensures Orphan(Apply(s, a), k) ==> Orphan(s, k) || DirtyDelete(s, a)
    {
      StepOnKey(s, a, k);
    }
    if DirtyDelete(s, a) {
      StepOnKey(s, a, a.key);
      assert Orphan(Apply(s, a), a.key);
    }
  }

  lemma {:induction false} RunKeepsTracked(s: State, acts: seq<Action>)
    requires AllTracked(s) && Legal(s, acts)
    ensures AllTracked(Run(s, acts))
    ensures HasOrphan(Run(s, acts)) <==> HasOrphan(s) || SomeDirtyDelete(s, acts)
    decreases |acts|
  {
    if acts != [] {
      StepKeepsTracked(s, acts[0]);
      RunKeepsTracked(Apply(s, acts[0]), acts[1..]);
    }
  }

  /** A key is stuck at the end of a run exactly when its last refused removal was never followed up. */
  lemma {:induction false} RunStuckIff(s: State, acts: seq<Action>, k: Key)
    requires AllTracked(s) && Legal(s, acts)
    ensures Stuck(Run(s, acts), k) <==> (Stuck(s, k) && Untouched(acts, k)) || RefusedForGood(s, acts, k)
    decreases |acts|
  {
    if acts != [] {
      StepOnKey(s, acts[0], k);
      StepKeepsTracked(s, acts[0]);
      RunStuckIff(Apply(s, acts[0]), acts[1..], k);
      assert Untouched(acts, k) <==> !Touches(acts[0], k) && Untouched(acts[1..], k) by {
        assert forall i :: 0 < i < |acts| ==> acts[i] == acts[1..][i - 1];
      }
    }
  }

  /** With an empty bag, agreement of the whole index means that no key is lost. */
  lemma DrainedAgreement(s: State)
    requires s.tasks == multiset{} && AllTracked(s)
    ensures s.index == Searchable(s.db) <==> forall k: Key :: !Orphan(s, k) && !Stuck(s, k)
  {
    if k: Key :| Orphan(s, k) || Stuck(s, k) {
      assert k in s.index && k !in Searchable(s.db);
    } else {
      forall k: Key
        ensures k in s.index <==> k in Searchable(s.db)
        ensures k in s.index ==> s.index[k] == Searchable(s.db)[k]
      {
        assert Tracked(s, k) && !Orphan(s, k) && !Stuck(s, k);
      }
    }
  }

  lemma EmptyIsTracked()
    ensures AllTracked(EMPTY) && forall k: Key :: KeyInv(EMPTY, k) && !Orphan(EMPTY, k) && !Stuck(EMPTY, k)
  {
  }

  /** The run-level condition, from any state in which no key is lost. */
  lemma DrainedFrom(s: State, acts: seq<Action>)
    requires AllTracked(s) && forall k: Key :: !Orphan(s, k) && !Stuck(s, k)
    requires Legal(s, acts) && Run(s, acts).tasks == multiset{}
    ensures Run(s, acts).index == Searchable(Run(s, acts).db)
      <==> !SomeDirtyDelete(s, acts) && !SomeRefusedForGood(s, acts)
  {
    var end := Run(s, acts);
    RunKeepsTracked(s, acts);
    DrainedAgreement(end);
    if SomeRefusedForGood(s, acts) {
      var k := RefusedKey(s, acts);
      RunStuckIff(s, acts, k);
      assert Stuck(end, k);
    } else if k: Key :| Stuck(end, k) {
      RunStuckIff(s, acts, k);
      RefusedIsSome(s, acts, k);
    }
    assert HasOrphan(end) <==> exists k: Key :: Orphan(end, k);
    assert !HasOrphan(s);
  }

  /**
   * Main result, for every run of saves, deletes and task executions from empty, with tasks in any order,
   * delivered any number of times, and removals refused at will: once the bag has drained, the index holds
   * exactly the searchable rows, if and only if no indexed row was deleted through an instance that is hidden
   * in memory or has lost its key at the commit, and no row's last removal was refused without the row being saved or deleted afterwards.
   */
  lemma DrainedIndexIsExact(acts: seq<Action>)
    requires Legal(EMPTY, acts) && Run(EMPTY, acts).tasks == multiset{}
    ensures Run(EMPTY, acts).index == Searchable(Run(EMPTY, acts).db)
      <==> !SomeDirtyDelete(EMPTY, acts) && !SomeRefusedForGood(EMPTY, acts)
  {
    EmptyIsTracked();
    DrainedFrom(EMPTY, acts);
  }

  /**
   * At every moment of a run, each key agrees, or has a repairing task waiting, or its document is lost by a
   * dirty delete or a refusal for good.
   */
  lemma EveryKeyAgreesOrWaits(acts: seq<Action>, k: Key)
    requires Legal(EMPTY, acts) && !SomeDirtyDelete(EMPTY, acts) && !RefusedForGood(EMPTY, acts, k)
    ensures Agrees(Run(EMPTY, acts), k) || Repairable(Run(EMPTY, acts), k)
  {
    EmptyIsTracked();
    RunKeepsTracked(EMPTY, acts);
    RunStuckIff(EMPTY, acts, k);
    assert !Orphan(Run(EMPTY, acts), k) && Tracked(Run(EMPTY, acts), k);
  }

  /** Any waiting repair works: once it has run, accepted, the key agrees and no other key has changed. */
  lemma RepairWorks(s: State, k: Key, keep: bool)
    requires KeyInv(s, k) && Repairable(s, k)
    ensures
      var t := if k in s.db then IndexTask(k) else DeleteTask(k);
      var s' := Apply(s, Work(t, keep, true));
      t in s.tasks && Agrees(s', k) && forall j :: j != k ==> SameEntry(s'.index, s.index, j)
  {
  }

  /** One step: exactly what breaks the invariant. */
  lemma StepKeepsInvIff(s: State, a: Action)
    requires Inv(s) && Enabled(s, a)
    ensures Inv(Apply(s, a)) <==> !DirtyDelete(s, a) && !FinalRefusal(s, a)
  {
    var s' := Apply(s, a);
    forall k: Key
      ensures KeyInv(s', k) || Orphan(s', k) || Stuck(s', k)
      ensures Orphan(s', k) <==> DirtyDelete(s, a) && a.key == k
      ensures Stuck(s', k) <==> FinalRefusalOf(s, a, k)
    {
      assert KeyInv(s, k);
      LostIsNotInvariant(s, k);
      StepOnKey(s, a, k);
    }
    if DirtyDelete(s, a) {
      LostIsNotInvariant(s', a.key);
    }
    if FinalRefusal(s, a) {
      LostIsNotInvariant(s', a.task.key);
    }
  }

  // ----- runs that end wrong -----

  lemma RunStep(s: State, a: Action, rest: seq<Action>)
    requires Enabled(s, a) && Legal(Apply(s, a), rest)
    ensures Legal(s, [a] + rest) && Run(s, [a] + rest) == Run(Apply(s, a), rest)
  {
    assert ([a] + rest)[1..] == rest;
  }

  lemma RunOfThree(s: State, a: Action, b: Action, c: Action)
    requires Enabled(s, a) && Enabled(Apply(s, a), b) && Enabled(Apply(Apply(s, a), b), c)
    ensures Legal(s, [a, b, c]) && Run(s, [a, b, c]) == Apply(Apply(Apply(s, a), b), c)
  {
    var s1 := Apply(s, a);
    var s2 := Apply(s1, b);
    RunStep(s2, c, []);
    RunStep(s1, b, [c]);
    RunStep(s, a, [b, c]);
    assert [c] + [] == [c] && [b] + [c] == [b, c] && [a] + [b, c] == [a, b, c];
  }

  const INDEXED := State(map[1 := Row("a", true)], multiset{}, map[1 := Doc(1, "a")], {})

  /** A searchable row, saved and indexed. */
  lemma PublishedRow()
    ensures Enabled(EMPTY, Save(1, Row("a", true)))
    ensures Enabled(Apply(EMPTY, Save(1, Row("a", true))), Work(IndexTask(1), false, true))
    ensures Apply(Apply(EMPTY, Save(1, Row("a", true))), Work(IndexTask(1), false, true)) == INDEXED
  {
    assert multiset{IndexTask(1)} - multiset{IndexTask(1)} == multiset{};
  }

  /** From there, two more steps. */
  lemma RunFromPublished(b: Action, c: Action)
    requires Enabled(INDEXED, b) && Enabled(Apply(INDEXED, b), c)
    ensures
      var acts := [Save(1, Row("a", true)), Work(IndexTask(1), false, true), b, c];
      Legal(EMPTY, acts) && Run(EMPTY, acts) == Apply(Apply(INDEXED, b), c)
  {
    PublishedRow();
    var a0, a1 := Save(1, Row("a", true)), Work(IndexTask(1), false, true);
    RunOfThree(Apply(EMPTY, a0), a1, b, c);
    RunStep(EMPTY, a0, [a1, b, c]);
    assert [a0] + [a1, b, c] == [a0, a1, b, c];
  }

  /** A refused removal can be final: this run drains the bag and leaves a hidden row searchable. */
  lemma RefusedRemovalStaysSearchable()
    ensures
      var acts := [
        Save(1, Row("a", true)), Work(IndexTask(1), false, true),
        Save(1, Row("a", false)), Work(IndexTask(1), false, false)];
      Legal(EMPTY, acts) &&
      Run(EMPTY, acts) == State(map[1 := Row("a", false)], multiset{}, map[1 := Doc(1, "a")], {})
  {
    RunFromPublished(Save(1, Row("a", false)), Work(IndexTask(1), false, false));
    assert multiset{IndexTask(1)} - multiset{IndexTask(1)} == multiset{};
  }

  /** A row that is deleted while the removal of its document still waits: the document stays for ever. */
  lemma DirtyDeleteStaysSearchable()
    ensures
      var acts := [
        Save(1, Row("a", true)), Work(IndexTask(1), false, true),
        Save(1, Row("a", false)), Delete(1, false, true), Work(IndexTask(1), false, true)];
      Legal(EMPTY, acts) && Run(EMPTY, acts) == State(map[], multiset{}, map[1 := Doc(1, "a")], {1})
  {
    PublishedRow();
    var a0, a1 := Save(1, Row("a", true)), Work(IndexTask(1), false, true);
    var a2, a3 := Save(1, Row("a", false)), Delete(1, false, true);
    RunOfThree(INDEXED, a2, a3, a1);
    RunStep(Apply(EMPTY, a0), a1, [a2, a3, a1]);
    RunStep(EMPTY, a0, [a1, a2, a3, a1]);
    assert [a1] + [a2, a3, a1] == [a1, a2, a3, a1] && [a0] + [a1, a2, a3, a1] == [a0, a1, a2, a3, a1];
    assert Apply(Apply(INDEXED, a2), a3).db == map[];
    assert multiset{IndexTask(1)} - multiset{IndexTask(1)} == multiset{};
  }

  /**
   * A searchable row that is deleted in a larger transaction: the task enqueued at the commit names no
   * document, and once it has run the bag is empty and the deleted row is still searchable.
   */
  lemma LostKeyStaysSearchable()
    ensures
      var acts := [
        Save(1, Row("a", true)), Work(IndexTask(1), false, true),
        Delete(1, true, false), Work(StrayDelete, false, true)];
      Legal(EMPTY, acts) && Run(EMPTY, acts) == State(map[], multiset{}, map[1 := Doc(1, "a")], {1})
  {
    var b := Delete(1, true, false);
    assert Apply(INDEXED, b).db == map[];
    assert Apply(INDEXED, b).tasks == multiset{StrayDelete};
    RunFromPublished(b, Work(StrayDelete, false, true));
    assert multiset{StrayDelete} - multiset{StrayDelete} == multiset{};
  }

  /**
   * A row that is hidden when the instance is loaded, then published and indexed, then deleted through the old
   * instance: nothing is enqueued at all.
   */
  lemma StaleInstanceStaysSearchable()
    ensures
      var acts := [
        Save(1, Row("a", false)), Work(IndexTask(1), false, true), Save(1, Row("a", true)),
        Work(IndexTask(1), false, true), Delete(1, false, true)];
      Legal(EMPTY, acts) && Run(EMPTY, acts) == State(map[], multiset{}, map[1 := Doc(1, "a")], {1})
  {
    var a0, a1 := Save(1, Row("a", false)), Work(IndexTask(1), false, true);
    var a2, a4 := Save(1, Row("a", true)), Delete(1, false, true);
    var s2 := Apply(Apply(EMPTY, a0), a1);
    assert multiset{IndexTask(1)} - multiset{IndexTask(1)} == multiset{};
    assert s2 == State(map[1 := Row("a", false)], multiset{}, map[], {});
    assert Apply(Apply(s2, a2), a1) == INDEXED;
    RunOfThree(s2, a2, a1, a4);
    RunStep(Apply(EMPTY, a0), a1, [a2, a1, a4]);
    RunStep(EMPTY, a0, [a1, a2, a1, a4]);
    assert [a1] + [a2, a1, a4] == [a1, a2, a1, a4] && [a0] + [a1, a2, a1, a4] == [a0, a1, a2, a1, a4];
    assert Apply(INDEXED, a4).db == map[];
  }

  // ----- order and duplicates -----

  lemma TaskIdempotent(db: map<Key, Row>, index: map<Key, Doc>, t: Task, accepted: bool)
    ensures TaskEffect(db, TaskEffect(db, index, t, accepted), t, accepted) == TaskEffect(db, index, t, accepted)
  {
  }

  predicate Conflict(db: map<Key, Row>, t: Task, r: Task) {
    t.IndexTask? && r == DeleteTask(t.key) && t.key in Searchable(db)
  }

  /** Two tasks commute on every index unless one writes the very document the other deletes. */
  lemma TasksCommuteIff(db: map<Key, Row>, t: Task, r: Task)
    ensures
      (forall index: map<Key, Doc> ::
        TaskEffect(db, TaskEffect(db, index, t, true), r, true) == TaskEffect(db, TaskEffect(db, index, r, true), t, true))
      <==> !Conflict(db, t, r) && !Conflict(db, r, t)
  {
    var none: map<Key, Doc> := map[];
    if Conflict(db, t, r) || Conflict(db, r, t) {
      var k := t.key;
      assert k in TaskEffect(db, TaskEffect(db, none, DeleteTask(k), true), IndexTask(k), true);
      assert k !in TaskEffect(db, TaskEffect(db, none, IndexTask(k), true), DeleteTask(k), true);
    } else {
      forall index: map<Key, Doc>
        ensures
          TaskEffect(db, TaskEffect(db, index, t, true), r, true) == TaskEffect(db, TaskEffect(db, index, r, true), t, true)
      {
        if !t.StrayDelete? && !r.StrayDelete? && t.key != r.key {
          assert TaskEffect(db, TaskEffect(db, index, t, true), r, true)
              == TaskEffect(db, TaskEffect(db, index, r, true), t, true);
        }
      }
    }
  }

  ghost function Drain(s: State, order: seq<Task>): State
    requires multiset(order) == s.tasks
    decreases |order|
  {
    if order == [] then s else
      assert order == [order[0]] + order[1..];
      Drain(Apply(s, Work(order[0], false, true)), order[1..])
  }

  /** The order in which a quiet system works off its bag does not matter: the result is the searchable rows. */
  lemma {:induction false} DrainOrderIrrelevant(s: State, order: seq<Task>)
    requires Inv(s) && multiset(order) == s.tasks
    ensures Drain(s, order) == s.(tasks := multiset{}, index := Searchable(s.db))
    decreases |order|
  {
    if order == [] {
      forall k: Key ensures !Orphan(s, k) && !Stuck(s, k) && Tracked(s, k) {
        assert KeyInv(s, k);
        LostIsNotInvariant(s, k);
      }
      DrainedAgreement(s);
    } else {
      assert order == [order[0]] + order[1..];
      assert order[0] in s.tasks;
      StepKeepsInvIff(s, Work(order[0], false, true));
      DrainOrderIrrelevant(Apply(s, Work(order[0], false, true)), order[1..]);
    }
  }
}
