/**
 * Server-side conversion events: the dispatch log with its retries, and the deterministic id of a purchase.
 * Attempts on one event do not overlap.
 */
module EventDispatch {
  import opened Wrappers

  // ----- the log -----

  datatype Status = Pending | Sent | Failed | Skipped

  datatype Event = Event(id: string, name: string, order: Option<nat>, user: Option<nat>, payload: string)

  datatype LogRow = LogRow(
    name: string, order: Option<nat>, user: Option<nat>, payload: string,
    status: Status, error: string, trace: string, received: nat)

  /**
   * What happens to one send. A worker can also be lost, before the send or between a send that succeeded
   * and the row that would record it.
   */
  datatype Reply =
    | Delivered(trace: string, received: nat)
    | Transient(message: string)
    | Permanent(message: string)
    | LostBeforeSend
    | LostAfterSend

  /** `accepted` lists the successful sends, in order: the client saw the remote side take the event. */
  datatype State = State(log: map<string, LogRow>, accepted: seq<string>)

  const EMPTY := State(map[], [])

  function Truncated(s: string, n: nat): string {
    if |s| <= n then s else s[..n]
  }

  predicate IsSent(s: State, id: string) {
    id in s.log && s.log[id].status == Sent
  }

  /** Create or update the row of an event: an update leaves trace, count and error message as they are. */
  function Prepared(log: map<string, LogRow>, e: Event): LogRow {
    if e.id in log
    then log[e.id].(name := e.name, order := e.order, user := e.user, payload := e.payload, status := Pending)
    else LogRow(e.name, e.order, e.user, e.payload, Pending, "", "", 0)
  }

  function Recorded(row: LogRow, reply: Reply): LogRow {
    match reply
    case Delivered(trace, received) =>
      row.(status := Sent, trace := Truncated(trace, 128), received := received, error := "")
    case Transient(message) => row.(status := Failed, error := Truncated(message, 1000))
    case Permanent(message) => row.(status := Failed, error := Truncated(message, 1000))
    case LostBeforeSend => row
    case LostAfterSend => row
  }

  predicate Takes(reply: Reply) {
    reply.Delivered? || reply.LostAfterSend?
  }

  function Attempt(s: State, e: Event, reply: Reply): State {
    if IsSent(s, e.id) then s else
      State(s.log[e.id := Recorded(Prepared(s.log, e), reply)],
            if Takes(reply) then s.accepted + [e.id] else s.accepted)
  }

  /** A text of a column of n characters. */
  predicate Fits(stored: string, text: string, n: nat) {
    stored <= text && if |text| <= n then stored == text else |stored| == n
  }

  /**
   * What one attempt does. A sent event is left alone. Otherwise its row carries the event, and says SENT with
   * trace and count after a recorded send, FAILED with the message after a failure, and PENDING when the worker
   * was lost; what an outcome does not speak of is kept. No other row changes.
   */
  ghost predicate AttemptRight(s: State, e: Event, reply: Reply, s': State) {
    if e.id in s.log && s.log[e.id].status == Sent then s' == s
    else
      s'.log.Keys == s.log.Keys + {e.id} &&
      (forall id :: id in s.log && id != e.id ==> s'.log[id] == s.log[id]) &&
      var row := s'.log[e.id];
      var before := if e.id in s.log then s.log[e.id] else LogRow("", None, None, "", Pending, "", "", 0);
      row.name == e.name && row.order == e.order && row.user == e.user && row.payload == e.payload &&
      (reply.Delivered? ==>
        row.status == Sent && Fits(row.trace, reply.trace, 128) && row.received == reply.received && row.error == "") &&
      (reply.Transient? || reply.Permanent? ==>
        row.status == Failed && Fits(row.error, reply.message, 1000) && row.trace == before.trace &&
        row.received == before.received) &&
      (reply.LostBeforeSend? || reply.LostAfterSend? ==>
        row.status == Pending && row.error == before.error && row.trace == before.trace &&
        row.received == before.received) &&
      s'.accepted == s.accepted + if reply.Delivered? || reply.LostAfterSend? then [e.id] else []
  }

  lemma AttemptIsRight(s: State, e: Event, reply: Reply)
    ensures AttemptRight(s, e, reply, Attempt(s, e, reply))
  {
  }

  class Dispatcher {
    var log: map<string, LogRow>
    ghost var accepted: seq<string>

    ghost function View(): State
      reads this
    {
      State(log, accepted)
    }

    constructor ()
      ensures View() == EMPTY
    {
      log, accepted := map[], [];
    }

    /** The result says whether a transient error is raised, so that the task is retried. */
    method Dispatch(e: Event, reply: Reply) returns (raised: bool)
      modifies this
      ensures View() == Attempt(old(View()), e, reply)
      ensures AttemptRight(old(View()), e, reply, View())
      ensures raised <==> !IsSent(old(View()), e.id) && reply.Transient?
    {
      AttemptIsRight(View(), e, reply);
      if e.id in log && log[e.id].status == Sent {
        return false;
      }
      var row :=
        if e.id in log
        then log[e.id].(name := e.name, order := e.order, user := e.user, payload := e.payload, status := Pending)
        else LogRow(e.name, e.order, e.user, e.payload, Pending, "", "", 0);
      log := log[e.id := row];
      match reply {
        case LostBeforeSend =>
          return false;
        case LostAfterSend =>
          accepted := accepted + [e.id];
          return false;
        case Transient(message) =>
          log := log[e.id := row.(status := Failed, error := Truncated(message, 1000))];
          return true;
        case Permanent(message) =>
          log := log[e.id := row.(status := Failed, error := Truncated(message, 1000))];
          return false;
        case Delivered(trace, received) =>
          accepted := accepted + [e.id];
          log := log[e.id := row.(status := Sent, trace := Truncated(trace, 128), received := received, error := "")];
          return false;
      }
    }
  }

  // ----- sequences of attempts -----

  type Call = (Event, Reply)

  function Run(s: State, calls: seq<Call>): State
    decreases |calls|
  {
    if calls == [] then s else Run(Attempt(s, calls[0].0, calls[0].1), calls[1..])
  }

  function Acceptances(accepted: seq<string>, id: string): nat {
    if accepted == [] then 0 else
      var k := |accepted| - 1;
      Acceptances(accepted[..k], id) + if accepted[k] == id then 1 else 0
  }

  /** Sends of the event that succeeded without being recorded, because the worker was lost. */
  function Unrecorded(s: State, calls: seq<Call>, id: string): nat
    decreases |calls|
  {
    if calls == [] then 0 else
      (if calls[0].0.id == id && calls[0].1.LostAfterSend? && !IsSent(s, id) then 1 else 0)
      + Unrecorded(Attempt(s, calls[0].0, calls[0].1), calls[1..], id)
  }

  function SentCount(s: State, id: string): nat {
    if IsSent(s, id) then 1 else 0
  }

  lemma AttemptAccounts(s: State, e: Event, reply: Reply, id: string)
    ensures
      var s' := Attempt(s, e, reply);
      Acceptances(s'.accepted, id) - SentCount(s', id)
      == Acceptances(s.accepted, id) - SentCount(s, id)
         + if e.id == id && reply.LostAfterSend? && !IsSent(s, id) then 1 else 0
  {
    assert (s.accepted + [e.id])[..|s.accepted|] == s.accepted;
  }

  /**
   * Exact accounting over any sequence of attempts, failures, retries and losses: the successful sends are
   * what the log records as sent, plus the sends whose worker was lost before recording them.
   */
  lemma {:induction false} RunAccounts(s: State, calls: seq<Call>, id: string)
    ensures Acceptances(Run(s, calls).accepted, id) - SentCount(Run(s, calls), id)
      == Acceptances(s.accepted, id) - SentCount(s, id) + Unrecorded(s, calls, id)
    decreases |calls|
  {
    if calls != [] {
      AttemptAccounts(s, calls[0].0, calls[0].1, id);
      RunAccounts(Attempt(s, calls[0].0, calls[0].1), calls[1..], id);
    }
  }

  /** The log is right about an event, sent once or not at all, exactly when no such loss happened to it. */
  lemma RecordRightIff(calls: seq<Call>, id: string)
    ensures
      var end := Run(EMPTY, calls);
      Acceptances(end.accepted, id) == SentCount(end, id) <==> Unrecorded(EMPTY, calls, id) == 0
  {
    RunAccounts(EMPTY, calls, id);
  }

  // ----- the sends that succeed, read off the replies -----

  predicate DeliveredAt(calls: seq<Call>, i: int, id: string) {
    0 <= i < |calls| && calls[i].0.id == id && calls[i].1.Delivered?
  }

  /** Call i reaches the remote side: its own send succeeds, and no earlier call on its event was recorded. */
  predicate Succeeds(calls: seq<Call>, i: int) {
    0 <= i < |calls| && Takes(calls[i].1) && forall k :: 0 <= k < i ==> !DeliveredAt(calls, k, calls[i].0.id)
  }

  /** The events of the calls that succeed, in order. */
  function SuccessfulIds(calls: seq<Call>): seq<string> {
    if calls == [] then [] else
      var k := |calls| - 1;
      SuccessfulIds(calls[..k]) + if Succeeds(calls, k) then [calls[k].0.id] else []
  }

  lemma {:induction false} RunLast(s: State, calls: seq<Call>, call: Call)
    ensures Run(s, calls + [call]) == Attempt(Run(s, calls), call.0, call.1)
    decreases |calls|
  {
    if calls != [] {
      assert (calls + [call])[1..] == calls[1..] + [call];
      RunLast(Attempt(s, calls[0].0, calls[0].1), calls[1..], call);
    } else {
      assert [call][1..] == [] && [] + [call] == [call];
    }
  }

  ghost predicate HasDelivered(calls: seq<Call>, id: string) {
    exists i :: DeliveredAt(calls, i, id)
  }

  /** An event is recorded as sent exactly when one of its calls was delivered and recorded. */
  lemma {:induction false} SentIff(calls: seq<Call>, id: string)
    ensures IsSent(Run(EMPTY, calls), id) <==> HasDelivered(calls, id)
  {
    if calls != [] {
      var k := |calls| - 1;
      var front := calls[..k];
      SentIff(front, id);
      assert calls == front + [calls[k]];
      RunLast(EMPTY, front, calls[k]);
      forall i | DeliveredAt(front, i, id) ensures DeliveredAt(calls, i, id) {}
      forall i | DeliveredAt(calls, i, id) && i < k ensures DeliveredAt(front, i, id) {}
      if calls[k].0.id == id && calls[k].1.Delivered? {
        assert DeliveredAt(calls, k, id);
      }
    }
  }

  /** What goes out over any sequence of calls, as a function of the replies alone. */
  lemma {:induction false} SuccessfulExactly(calls: seq<Call>)
    ensures Run(EMPTY, calls).accepted == SuccessfulIds(calls)
  {
    if calls != [] {
      var k := |calls| - 1;
      var front := calls[..k];
      SuccessfulExactly(front);
      SentIff(front, calls[k].0.id);
      assert calls == front + [calls[k]];
      RunLast(EMPTY, front, calls[k]);
      assert forall i :: i < k ==> (DeliveredAt(front, i, calls[k].0.id) <==> DeliveredAt(calls, i, calls[k].0.id));
    }
  }

  /** The calls up to a point succeed or not whatever comes after them. */
  lemma SucceedsInFront(calls: seq<Call>, i: int)
    requires 0 <= i < |calls| - 1
    ensures Succeeds(calls[..|calls| - 1], i) <==> Succeeds(calls, i)
  {
    var front := calls[..|calls| - 1];
    assert forall k :: k < i ==> (DeliveredAt(front, k, calls[i].0.id) <==> DeliveredAt(calls, k, calls[i].0.id));
  }

  /** Two successful calls, i before j; with `id` given, both on that event. */
  predicate TwiceAt(calls: seq<Call>, i: int, j: int, id: Option<string>) {
    i < j && Succeeds(calls, i) && Succeeds(calls, j) &&
    (id.Some? ==> calls[i].0.id == id.value && calls[j].0.id == id.value)
  }

  /** How many entries there are, or how many of one event. */
  function Entries(ids: seq<string>, id: Option<string>): nat {
    if id.None? then |ids| else Acceptances(ids, id.value)
  }

  predicate OnceAt(calls: seq<Call>, i: int, id: Option<string>) {
    Succeeds(calls, i) && (id.Some? ==> calls[i].0.id == id.value)
  }

  lemma EntriesAppend(ids: seq<string>, x: string, id: Option<string>)
    ensures Entries(ids + [x], id) == Entries(ids, id) + if id.None? || id.value == x then 1 else 0
  {
    assert (ids + [x])[..|ids|] == ids;
  }

  lemma {:induction false} CountSuccesses(calls: seq<Call>, id: Option<string>)
    ensures Entries(SuccessfulIds(calls), id) >= 1 <==> exists i :: OnceAt(calls, i, id)
    ensures Entries(SuccessfulIds(calls), id) >= 2 <==> exists i, j :: TwiceAt(calls, i, j, id)
  {
    if calls != [] {
      var k := |calls| - 1;
      var front := calls[..k];
      CountSuccesses(front, id);
      EntriesAppend(SuccessfulIds(front), calls[k].0.id, id);
      assert SuccessfulIds(front) + [] == SuccessfulIds(front);
      forall i | 0 <= i < k ensures OnceAt(front, i, id) <==> OnceAt(calls, i, id) {
        SucceedsInFront(calls, i);
      }
      forall i, j | 0 <= i < k && 0 <= j < k ensures TwiceAt(front, i, j, id) <==> TwiceAt(calls, i, j, id) {
        SucceedsInFront(calls, i);
        SucceedsInFront(calls, j);
      }
      if OnceAt(calls, k, id) && Entries(SuccessfulIds(front), id) >= 1 {
        var i :| OnceAt(front, i, id);
        assert TwiceAt(calls, i, k, id);
      }
      if i, j :| TwiceAt(calls, i, j, id) {
        assert OnceAt(calls, i, id) && OnceAt(front, i, id);
        assert j < k ==> TwiceAt(front, i, j, id);
      }
      if i :| OnceAt(calls, i, id) {
        assert i < k ==> OnceAt(front, i, id);
      }
      if i :| OnceAt(front, i, id) {
        assert OnceAt(calls, i, id);
      }
      if i, j :| TwiceAt(front, i, j, id) {
        assert TwiceAt(calls, i, j, id);
      }
    }
  }

  /**
   * Main result for one event: it goes out at most once exactly when no send of it succeeds after an earlier
   * one whose worker was lost before recording it, with no recorded send in between.
   */
  lemma AcceptedAtMostOnceIff(calls: seq<Call>, id: string)
    ensures Acceptances(Run(EMPTY, calls).accepted, id) <= 1
      <==> !exists i, j :: 0 <= i < j < |calls| && calls[i].0.id == calls[j].0.id == id &&
             calls[i].1.LostAfterSend? && Takes(calls[j].1) && forall k :: k < j ==> !DeliveredAt(calls, k, id)
  {
    SuccessfulExactly(calls);
    CountSuccesses(calls, Some(id));
    forall i, j | TwiceAt(calls, i, j, Some(id))
      ensures calls[i].1.LostAfterSend? && forall k :: k < j ==> !DeliveredAt(calls, k, id)
    {
      assert !DeliveredAt(calls, i, id);
    }
    forall i, j | 0 <= i < j < |calls| && calls[i].0.id == calls[j].0.id == id &&
                  calls[i].1.LostAfterSend? && Takes(calls[j].1) && forall k :: k < j ==> !DeliveredAt(calls, k, id)
      ensures TwiceAt(calls, i, j, Some(id))
    {
    }
  }

  /** A worker that is lost after its send: the retry sends the event a second time. */
  lemma LostWorkerSendsTwice(e: Event, trace: string, received: nat)
    ensures
      var end := Run(EMPTY, [(e, LostAfterSend), (e, Delivered(trace, received))]);
      end.accepted == [e.id, e.id] && IsSent(end, e.id)
  {
    var calls := [(e, LostAfterSend), (e, Delivered(trace, received))];
    assert calls[1..] == [calls[1]] && [calls[1]][1..] == [];
    var s1 := Attempt(EMPTY, e, LostAfterSend);
    assert Run(s1, [calls[1]]) == Run(Attempt(s1, e, calls[1].1), []);
  }

  /** SENT is absorbing: no later attempt changes the row or sends again. */
  lemma {:induction false} SentIsAbsorbing(s: State, calls: seq<Call>, id: string)
    requires IsSent(s, id)
    ensures IsSent(Run(s, calls), id) && Run(s, calls).log[id] == s.log[id]
    ensures Acceptances(Run(s, calls).accepted, id) == Acceptances(s.accepted, id)
    decreases |calls|
  {
    if calls != [] {
      var next := Attempt(s, calls[0].0, calls[0].1);
      assert (s.accepted + [calls[0].0.id])[..|s.accepted|] == s.accepted;
      SentIsAbsorbing(next, calls[1..], id);
    }
  }

  /** Attempts on other events do not touch this one. */
  lemma {:induction false} OtherEventsApart(s: State, calls: seq<Call>, id: string)
    requires forall i :: 0 <= i < |calls| ==> calls[i].0.id != id
    ensures id in Run(s, calls).log <==> id in s.log
    ensures id in s.log ==> Run(s, calls).log[id] == s.log[id]
    ensures Acceptances(Run(s, calls).accepted, id) == Acceptances(s.accepted, id)
    decreases |calls|
  {
    if calls != [] {
      var next := Attempt(s, calls[0].0, calls[0].1);
      assert (s.accepted + [calls[0].0.id])[..|s.accepted|] == s.accepted;
      OtherEventsApart(next, calls[1..], id);
    }
  }

  // ----- the purchase event -----

  /** A value in an order's metadata; `printed` is its text form. */
  datatype Json =
    | Text(text: string)
    | Object(fields: map<string, Json>, printed: string)
    | Other(truthy: bool, printed: string)

  predicate Truthy(j: Json) {
    match j
    case Text(s) => s != ""
    case Object(fields, _) => fields != map[]
    case Other(t, _) => t
  }

  function PrintedForm(j: Json): string {
    if j.Text? then j.text else j.printed
  }

  datatype Order = Order(pk: nat, user: Option<nat>, uuid: string, metadata: map<string, Json>)

  /** A missing, falsy or ill-typed entry counts as an empty object. */
  function ObjectAt(fields: map<string, Json>, key: string): map<string, Json> {
    if key in fields && fields[key].Object? then fields[key].fields else map[]
  }

  function MetaContext(o: Order): map<string, Json> {
    ObjectAt(o.metadata, "meta")
  }

  const EVENT_ID_KEYS := ["purchase", "initiate_checkout", "add_payment_info"]

  function EventIdFor(o: Order, key: string): Option<string> {
    if key !in EVENT_ID_KEYS then None else
      var ids := ObjectAt(MetaContext(o), "event_ids");
      if key in ids && Truthy(ids[key]) then Some(PrintedForm(ids[key])) else None
  }

  /** The stored id wins when there is one (and is not empty); otherwise the id follows from the order. */
  function PurchaseId(o: Order): string {
    var stored := EventIdFor(o, "purchase");
    if stored.Some? && stored.value != "" then stored.value else "purchase-" + o.uuid
  }

  predicate ConsentGranted(o: Order) {
    var consent := ObjectAt(MetaContext(o), "consent");
    "ads" in consent && Truthy(consent["ads"])
  }

  function PurchaseEvent(o: Order, payload: string): Event {
    Event(PurchaseId(o), "Purchase", Some(o.pk), o.user, payload)
  }

  /** One run of the purchase task, with the order as it reads it (none when it is gone). */
  datatype PurchaseTask = PurchaseTask(order: Option<Order>, enabled: bool, payload: string, reply: Reply)

  predicate Proceeds(t: PurchaseTask) {
    t.enabled && t.order.Some? && ConsentGranted(t.order.value)
  }

  function RunPurchases(s: State, tasks: seq<PurchaseTask>): State
    decreases |tasks|
  {
    if tasks == [] then s
    else if Proceeds(tasks[0])
    then RunPurchases(Attempt(s, PurchaseEvent(tasks[0].order.value, tasks[0].payload), tasks[0].reply), tasks[1..])
    else RunPurchases(s, tasks[1..])
  }

  function CallsOf(tasks: seq<PurchaseTask>): seq<Call> {
    if tasks == [] then []
    else (if Proceeds(tasks[0])
          then [(PurchaseEvent(tasks[0].order.value, tasks[0].payload), tasks[0].reply)] else [])
         + CallsOf(tasks[1..])
  }

  lemma {:induction false} PurchasesAreCalls(s: State, tasks: seq<PurchaseTask>)
    ensures RunPurchases(s, tasks) == Run(s, CallsOf(tasks))
    decreases |tasks|
  {
    if tasks != [] {
      if Proceeds(tasks[0]) {
        var call := (PurchaseEvent(tasks[0].order.value, tasks[0].payload), tasks[0].reply);
        assert CallsOf(tasks)[0] == call && CallsOf(tasks)[1..] == CallsOf(tasks[1..]);
        PurchasesAreCalls(Attempt(s, call.0, call.1), tasks[1..]);
      } else {
        assert CallsOf(tasks) == CallsOf(tasks[1..]);
        PurchasesAreCalls(s, tasks[1..]);
      }
    }
  }

  lemma {:induction false} NoLossNoUnrecorded(s: State, calls: seq<Call>, id: string)
    requires forall i :: 0 <= i < |calls| ==> !calls[i].1.LostAfterSend?
    ensures Unrecorded(s, calls, id) == 0
    decreases |calls|
  {
    if calls != [] {
      NoLossNoUnrecorded(Attempt(s, calls[0].0, calls[0].1), calls[1..], id);
    }
  }

  lemma {:induction false} CallsWithoutLoss(tasks: seq<PurchaseTask>, id: string)
    requires forall i :: 0 <= i < |tasks| ==> !tasks[i].reply.LostAfterSend?
    requires forall i :: 0 <= i < |tasks| && tasks[i].order.Some? ==> PurchaseId(tasks[i].order.value) == id
    ensures forall i :: 0 <= i < |CallsOf(tasks)| ==>
      !CallsOf(tasks)[i].1.LostAfterSend? && CallsOf(tasks)[i].0.id == id
  {
    if tasks != [] {
      CallsWithoutLoss(tasks[1..], id);
    }
  }

  lemma {:induction false} OneIdOnly(s: State, calls: seq<Call>, id: string)
    requires forall i :: 0 <= i < |calls| ==> calls[i].0.id == id
    ensures |Run(s, calls).accepted| - |s.accepted|
      == Acceptances(Run(s, calls).accepted, id) - Acceptances(s.accepted, id)
    decreases |calls|
  {
    if calls != [] {
      assert (s.accepted + [id])[..|s.accepted|] == s.accepted;
      OneIdOnly(Attempt(s, calls[0].0, calls[0].1), calls[1..], id);
    }
  }

  /**
   * Main result: however often the purchase of one order is scheduled, by whichever signal, and whatever
   * fails and is retried, it is taken at most once, as long as the order's stored id does not change.
   */
  lemma PurchaseTakenAtMostOnce(tasks: seq<PurchaseTask>, order: Order)
    requires forall i :: 0 <= i < |tasks| ==> !tasks[i].reply.LostAfterSend?
    requires forall i :: 0 <= i < |tasks| && tasks[i].order.Some? ==>
      tasks[i].order.value.uuid == order.uuid &&
      EventIdFor(tasks[i].order.value, "purchase") == EventIdFor(order, "purchase")
    ensures |RunPurchases(EMPTY, tasks).accepted| <= 1
  {
    var s := EMPTY;
    var id := PurchaseId(order);
    PurchasesAreCalls(s, tasks);
    CallsWithoutLoss(tasks, id);
    NoLossNoUnrecorded(s, CallsOf(tasks), id);
    RunAccounts(s, CallsOf(tasks), id);
    OneIdOnly(s, CallsOf(tasks), id);
  }

  /** Purchase i was sent and recorded under the id it read. */
  predicate PurchaseDelivered(tasks: seq<PurchaseTask>, i: int, id: string) {
    0 <= i < |tasks| && Proceeds(tasks[i]) && tasks[i].reply.Delivered? && PurchaseId(tasks[i].order.value) == id
  }

  ghost predicate HasPurchase(tasks: seq<PurchaseTask>, id: string) {
    exists i :: PurchaseDelivered(tasks, i, id)
  }

  lemma {:induction false} DeliveredCalls(tasks: seq<PurchaseTask>, id: string)
    ensures HasDelivered(CallsOf(tasks), id) <==> HasPurchase(tasks, id)
  {
    if tasks != [] {
      var rest := tasks[1..];
      DeliveredCalls(rest, id);
      var calls := CallsOf(tasks);
      var shift := if Proceeds(tasks[0]) then 1 else 0;
      assert calls[shift..] == CallsOf(rest);
      if k :| DeliveredAt(calls, k, id) {
        if k < shift {
          assert PurchaseDelivered(tasks, 0, id);
        } else {
          assert calls[shift..][k - shift] == calls[k];
          assert DeliveredAt(CallsOf(rest), k - shift, id);
          var i :| PurchaseDelivered(rest, i, id);
          assert PurchaseDelivered(tasks, i + 1, id);
        }
      }
      if i :| PurchaseDelivered(tasks, i, id) {
        if i == 0 {
          assert DeliveredAt(calls, 0, id);
        } else {
          assert PurchaseDelivered(rest, i - 1, id);
          var k :| DeliveredAt(CallsOf(rest), k, id);
          assert calls[shift..][k] == calls[k + shift];
          assert DeliveredAt(calls, k + shift, id);
        }
      }
    }
  }

  lemma {:induction false} NoLossInCalls(tasks: seq<PurchaseTask>)
    requires forall i :: 0 <= i < |tasks| ==> !tasks[i].reply.LostAfterSend?
    ensures forall k :: 0 <= k < |CallsOf(tasks)| ==> !CallsOf(tasks)[k].1.LostAfterSend?
  {
    if tasks != [] {
      NoLossInCalls(tasks[1..]);
    }
  }

  /** The first recorded call of an event succeeds. */
  lemma {:induction false} FirstDeliveredSucceeds(calls: seq<Call>, k: int, id: string) returns (i: int)
    requires DeliveredAt(calls, k, id)
    ensures i <= k && DeliveredAt(calls, i, id) && Succeeds(calls, i)
    decreases k
  {
    if j :| j < k && DeliveredAt(calls, j, id) {
      i := FirstDeliveredSucceeds(calls, j, id);
    } else {
      i := k;
    }
  }

  /** Without losses, at most one send succeeds exactly when all recorded calls are on one event. */
  lemma OneEventIff(calls: seq<Call>)
    requires forall k :: 0 <= k < |calls| ==> !calls[k].1.LostAfterSend?
    ensures |Run(EMPTY, calls).accepted| <= 1
      <==> forall x, y :: HasDelivered(calls, x) && HasDelivered(calls, y) ==> x == y
  {
    SuccessfulExactly(calls);
    CountSuccesses(calls, None);
    if x, y :| HasDelivered(calls, x) && HasDelivered(calls, y) && x != y {
      var a :| DeliveredAt(calls, a, x);
      var b :| DeliveredAt(calls, b, y);
      var i := FirstDeliveredSucceeds(calls, a, x);
      var j := FirstDeliveredSucceeds(calls, b, y);
      assert TwiceAt(calls, i, j, None) || TwiceAt(calls, j, i, None);
    } else {
      forall i, j ensures !TwiceAt(calls, i, j, None) {
        if TwiceAt(calls, i, j, None) {
          assert DeliveredAt(calls, i, calls[i].0.id) && DeliveredAt(calls, j, calls[j].0.id);
          assert HasDelivered(calls, calls[i].0.id) && HasDelivered(calls, calls[j].0.id);
        }
      }
    }
  }

  /**
   * Main result for the purchases of an order, over every schedule with its failures and retries: at most one
   * send succeeds exactly when all recorded sends read the same purchase id.
   */
  lemma PurchaseTakenOnceIff(tasks: seq<PurchaseTask>)
    requires forall i :: 0 <= i < |tasks| ==> !tasks[i].reply.LostAfterSend?
    ensures |RunPurchases(EMPTY, tasks).accepted| <= 1
      <==> forall x, y :: HasPurchase(tasks, x) && HasPurchase(tasks, y) ==> x == y
  {
    PurchasesAreCalls(EMPTY, tasks);
    NoLossInCalls(tasks);
    OneEventIff(CallsOf(tasks));
    forall id: string ensures HasDelivered(CallsOf(tasks), id) <==> HasPurchase(tasks, id) {
      DeliveredCalls(tasks, id);
    }
  }

  /** The same with losses: no two of the calls that the tasks make succeed. */
  lemma PurchaseTakenOnceWithLosses(tasks: seq<PurchaseTask>)
    ensures |RunPurchases(EMPTY, tasks).accepted| <= 1 <==> !exists i, j :: TwiceAt(CallsOf(tasks), i, j, None)
  {
    PurchasesAreCalls(EMPTY, tasks);
    SuccessfulExactly(CallsOf(tasks));
    CountSuccesses(CallsOf(tasks), None);
  }

  // ----- consent and id, in terms of the metadata -----

  predicate CountsAsTrue(j: Json) {
    (j.Text? ==> j.text != "") && (j.Object? ==> j.fields != map[]) && (j.Other? ==> j.truthy)
  }

  /** metadata["meta"][section][key], where the two outer levels are objects. */
  predicate At(o: Order, section: string, key: string, value: Json) {
    "meta" in o.metadata && o.metadata["meta"].Object? &&
    var meta := o.metadata["meta"].fields;
    section in meta && meta[section].Object? && key in meta[section].fields && meta[section].fields[key] == value
  }

  /** Ad consent is granted exactly when metadata["meta"]["consent"]["ads"] counts as true. */
  lemma ConsentIff(o: Order)
    ensures ConsentGranted(o) <==> exists value :: At(o, "consent", "ads", value) && CountsAsTrue(value)
  {
    if ConsentGranted(o) {
      var value := o.metadata["meta"].fields["consent"].fields["ads"];
      assert At(o, "consent", "ads", value) && CountsAsTrue(value);
    }
    if value :| At(o, "consent", "ads", value) && CountsAsTrue(value) {
      assert MetaContext(o) == o.metadata["meta"].fields;
    }
  }

  /** The purchase id is the stored one when it counts as true and prints to something, and else follows the uuid. */
  lemma PurchaseIdIs(o: Order)
    ensures forall value :: At(o, "event_ids", "purchase", value) && CountsAsTrue(value) ==>
      PurchaseId(o) ==
        if value.Text? then value.text else if value.printed != "" then value.printed else "purchase-" + o.uuid
    ensures (forall value :: !(At(o, "event_ids", "purchase", value) && CountsAsTrue(value))) ==>
      PurchaseId(o) == "purchase-" + o.uuid
  {
    assert EVENT_ID_KEYS[0] == "purchase" && "purchase" in EVENT_ID_KEYS;
    forall value | At(o, "event_ids", "purchase", value) && CountsAsTrue(value)
      ensures PurchaseId(o) ==
        if value.Text? then value.text else if value.printed != "" then value.printed else "purchase-" + o.uuid
    {
      assert MetaContext(o) == o.metadata["meta"].fields;
      assert ObjectAt(MetaContext(o), "event_ids")["purchase"] == value;
    }
    var ids := ObjectAt(MetaContext(o), "event_ids");
    if "purchase" in ids && Truthy(ids["purchase"]) {
      assert At(o, "event_ids", "purchase", ids["purchase"]) && CountsAsTrue(ids["purchase"]);
    }
  }

  /** A purchase task without the switch, the order or the consent leaves the log alone and sends nothing. */
  lemma {:induction false} NothingWithoutConsent(s: State, tasks: seq<PurchaseTask>)
    requires forall i :: 0 <= i < |tasks| ==>
      !tasks[i].enabled || tasks[i].order.None? ||
      forall value :: At(tasks[i].order.value, "consent", "ads", value) ==> !CountsAsTrue(value)
    ensures RunPurchases(s, tasks) == s
  {
    if tasks != [] {
      if tasks[0].order.Some? { ConsentIff(tasks[0].order.value); }
      NothingWithoutConsent(s, tasks[1..]);
    }
  }

  /** With all three it makes one attempt, for the purchase of that order. */
  lemma ConsentedIsAttempted(s: State, t: PurchaseTask, value: Json)
    requires t.enabled && t.order.Some? && At(t.order.value, "consent", "ads", value) && CountsAsTrue(value)
    ensures
      var o := t.order.value;
      AttemptRight(s, Event(PurchaseId(o), "Purchase", Some(o.pk), o.user, t.payload), t.reply, RunPurchases(s, [t]))
  {
    var o := t.order.value;
    ConsentIff(o);
    assert [t][1..] == [];
    AttemptIsRight(s, PurchaseEvent(o, t.payload), t.reply);
  }

  /** Two readings of one order have different purchase ids only if its stored id was added or changed. */
  lemma DifferentIdsNeedChange(a: Order, b: Order)
    requires a.uuid == b.uuid && PurchaseId(a) != PurchaseId(b)
    ensures EventIdFor(a, "purchase") != EventIdFor(b, "purchase")
  {
  }

  /** An order with ad consent, as it is read before and after the shop stores a purchase id on it. */
  function ReadingOf(stored: map<string, Json>): Order {
    Order(7, None, "u-7", map["meta" := Object(
      map["consent" := Object(map["ads" := Other(true, "True")], ""), "event_ids" := Object(stored, "")], "")])
  }

  /** The purchase of such an order goes out twice, under two ids. */
  lemma ChangedIdSendsTwice(payload: string, trace: string)
    ensures
      var tasks := [
        PurchaseTask(Some(ReadingOf(map[])), true, payload, Delivered(trace, 1)),
        PurchaseTask(Some(ReadingOf(map["purchase" := Text("pixel-1")])), true, payload, Delivered(trace, 1))];
      RunPurchases(EMPTY, tasks).accepted == ["purchase-u-7", "pixel-1"]
  {
    var a, b := ReadingOf(map[]), ReadingOf(map["purchase" := Text("pixel-1")]);
    var first := PurchaseTask(Some(a), true, payload, Delivered(trace, 1));
    var second := PurchaseTask(Some(b), true, payload, Delivered(trace, 1));
    assert "purchase" in EVENT_ID_KEYS by { assert EVENT_ID_KEYS[0] == "purchase"; }
    assert PurchaseId(a) == "purchase-" + "u-7" == "purchase-u-7" && PurchaseId(b) == "pixel-1";
    assert "purchase-u-7"[1] == 'u' && "pixel-1"[1] == 'i';
    var s1 := Attempt(EMPTY, PurchaseEvent(a, payload), first.reply);
    assert [first, second][1..] == [second] && [second][1..] == [];
    var s2 := Attempt(s1, PurchaseEvent(b, payload), second.reply);
    assert RunPurchases(s1, [second]) == RunPurchases(s2, []);
  }

  /** Orders without a stored id never share one. */
  lemma FallbackIdsDistinct(a: Order, b: Order)
    requires EventIdFor(a, "purchase").None? && EventIdFor(b, "purchase").None?
    ensures PurchaseId(a) == PurchaseId(b) <==> a.uuid == b.uuid
  {
    assert PurchaseId(a)[9..] == a.uuid && PurchaseId(b)[9..] == b.uuid;
  }
}
