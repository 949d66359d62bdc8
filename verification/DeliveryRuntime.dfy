/** Delivering load-control limits to EEBUS peers: sends register message counters, answers are
    correlated by (peer SKI, counter), and pending deliveries are retried. */
module DeliveryRuntime {
  import opened Wrappers
  import opened DeliveryStatus
  import opened PeerLink
  import opened DeliveryTrace
  import Text

  function Registered(pending: Pending, key: Option<CounterKey>, id: string): Pending {
    if key.Some? then pending[key.value := id] else pending
  }

  function Consumed(pending: Pending, key: Option<CounterKey>): Pending {
    if key.Some? then pending - {key.value} else pending
  }

  /** `pending` has the delivery under the peer's counter, if there is one, and is otherwise as before. */
  ghost predicate IsRegistered(pending: Pending, was: Pending, peerSki: string, counter: Option<int>, id: string) {
    match counter
    case None => pending == was
    case Some(c) =>
      var key := CounterKey(NormalizeSki(peerSki), c);
      key in pending && pending[key] == id && pending - {key} == was - {key}
  }

  /** `pending` has no entry under the peer's counter any more and is otherwise as before. */
  ghost predicate IsConsumed(pending: Pending, was: Pending, peerSki: string, counter: Option<int>) {
    match counter
    case None => pending == was
    case Some(c) => pending == was - {CounterKey(NormalizeSki(peerSki), c)}
  }

  /** The delivery, and only it, has got the status, if it exists and the runtime is attached. */
  ghost predicate OnlyStatus(table: map<string, Delivery>, was: map<string, Delivery>, attached: bool, id: string,
                             status: Status) {
    && table.Keys == was.Keys
    && (forall other :: other in was && other != id ==> table[other] == was[other])
    && (id in was ==> if attached then table[id].status == status else table[id] == was[id])
  }

  /** A delivery is pending under the peer's counter. */
  predicate IsPendingFor(pending: Pending, ski: string, counter: Option<int>) {
    counter.Some? && CounterKey(NormalizeSki(ski), counter.value) in pending &&
    pending[CounterKey(NormalizeSki(ski), counter.value)] != ""
  }

  function PendingFor(pending: Pending, ski: string, counter: Option<int>): string
    requires IsPendingFor(pending, ski, counter)
  {
    pending[CounterKey(NormalizeSki(ski), counter.value)]
  }

  // ---- Retry selection ---------------------------------------------------------------

  datatype Constraint = Constraint(isActive: bool, expiresAt: Option<int>)

  datatype SendRequest = SendRequest(id: string, endpointRef: string, peerSki: string, watts: int)

  predicate Retryable(d: Delivery, peer: string, constraints: map<string, Constraint>, now: int) {
    && d.targetPeerSki == peer
    && d.isActive
    && (d.status.Pending? || (d.status.Failed? && IsTransient(d.lastError)))
    && d.constraintId in constraints
    && constraints[d.constraintId].isActive
    && (constraints[d.constraintId].expiresAt.Some? ==> constraints[d.constraintId].expiresAt.value > now)
    && d.allocatedWatts > 0
  }

  /** Deliverable at all, apart from which peer a retry is for. */
  predicate Sendable(d: Delivery, constraints: map<string, Constraint>, now: int) {
    Retryable(d, d.targetPeerSki, constraints, now)
  }

  /** Retries compare the stored target with a normalized SKI: a delivery that could be sent is reached
      by the retry for some peer exactly when its target, trimmed and lower case as it is stored, has no
      colon and no blank. */
  lemma RetryReachesExactly(d: Delivery, constraints: map<string, Constraint>, now: int)
    requires Text.Trimmed(d.targetPeerSki) && Text.IsLower(d.targetPeerSki)
    ensures (exists peer :: Retryable(d, NormalizeSki(peer), constraints, now)) <==>
              Sendable(d, constraints, now) && ':' !in d.targetPeerSki && ' ' !in d.targetPeerSki
  {
    hide NormalizeSki, IsTransient, Text.Trimmed, Text.IsLower;
    RetryReachesExactlyNormalTargets(d.targetPeerSki);
    if peer :| NormalizeSki(peer) == d.targetPeerSki {
      assert Sendable(d, constraints, now) ==> Retryable(d, NormalizeSki(peer), constraints, now);
    }
  }

  /** A delivery that failed for good is never retried, one that failed on the way is. */
  lemma FailedIsRetriedIff(d: Delivery, peer: string, constraints: map<string, Constraint>, now: int)
    requires d.status.Failed?
    ensures Retryable(d, peer, constraints, now) <==>
              IsTransient(d.lastError) && Retryable(d.(status := Status.Pending), peer, constraints, now)
  {
    hide IsTransient;
  }

  /** In particular a pending delivery for "aa:bb" is never retried, even when its peer connects. */
  lemma ColonTargetIsNeverRetried(d: Delivery, constraints: map<string, Constraint>, now: int, peer: string)
    requires d.targetPeerSki == "aa:bb" && d.status.Pending?
    ensures !Retryable(d, NormalizeSki(peer), constraints, now)
  {
    hide NormalizeSki, IsTransient;
    assert d.targetPeerSki[2] == ':';
    assert !IsNormalSki(d.targetPeerSki);
    NormalizeIsNormal(peer);
  }

  /** What a retry needs: a delivery for the peer that is active and pending, or failed on the way, with
      watts to deliver, under a limit that is known, active and has not expired. */
  lemma RetryableIff(d: Delivery, peer: string, constraints: map<string, Constraint>, now: int)
    ensures Retryable(d, peer, constraints, now) <==>
            && d.targetPeerSki == peer && d.isActive && d.allocatedWatts >= 1
            && (d.status == Status.Pending || (d.status == Failed && IsTransient(d.lastError)))
            && d.constraintId in constraints && constraints[d.constraintId].isActive
            && (constraints[d.constraintId].expiresAt == None || now < constraints[d.constraintId].expiresAt.value)
  {
    hide IsTransient;
  }

  // ---- The runtime -------------------------------------------------------------------

  datatype SendOutcome = Delivered(msgCounter: Option<int>, readbackCounter: Option<int>) | Refused(error: string)

  /** The event a send ends in: an inbound session is tried first, then an outbound client. */
  function SendEvent(id: string, peerSki: string, server: Option<SendOutcome>, client: Option<SendOutcome>,
                     at: int): Event {
    if server.Some? && server.value.Delivered?
    then SendSucceeded(id, KeyOf(peerSki, server.value.msgCounter), KeyOf(peerSki, server.value.readbackCounter), at)
    else if client.None? then FailureEvent(id, NotConnectedError(peerSki), at)
    else match client.value
      case Delivered(m, r) => SendSucceeded(id, KeyOf(peerSki, m), KeyOf(peerSki, r), at)
      case Refused(error) => FailureEvent(id, error, at)
  }

  /** The outcome that counts: what the inbound session delivered, else what the outbound client says. */
  function Answer(server: Option<SendOutcome>, client: Option<SendOutcome>, peerSki: string): (r: SendOutcome)
    ensures server.Some? && server.value.Delivered? ==> r == server.value
    ensures (server.None? || server.value.Refused?) && client.Some? ==> r == client.value
    ensures (server.None? || server.value.Refused?) && client.None? ==> r.Refused? && IsTransient(r.error)
  {
    NotConnectedIsTransient(peerSki);
    if server.Some? && server.value.Delivered? then server.value
    else if client.Some? then client.value
    else Refused(NotConnectedError(peerSki))
  }

  function FailureEvent(id: string, error: string, at: int): Event {
    SendFailed(id, IsTransient(error), error, at)
  }

  /** One failure for each named delivery, in order. */
  function LoopDowns(ids: seq<string>, error: string, at: int): seq<Event> {
    if ids == [] then [] else
    var last := ids[|ids| - 1];
    LoopDowns(ids[..|ids| - 1], error, at) + if last != "" then [LoopDown(last, error, at)] else []
  }

  ghost predicate VerdictJustified(trace: seq<Event>, d: Delivery, id: string) {
    d.targetPeerSki != "" && IsAnswered(d.status) ==> Justified(trace, id, d.status)
  }

  class Runtime {
    var pendingWrites: Pending
    var pendingReadbacks: Pending
    var table: map<string, Delivery>
    var attached: bool
    ghost var trace: seq<Event>

    ghost predicate Valid()
      reads this
    {
      var s := Run(trace);
      pendingWrites == s.writes && pendingReadbacks == s.readbacks && table == s.table && attached == s.attached
    }

    /** In every reachable state a verdict on an EEBUS delivery is justified by a credited answer, and
        under a monotone clock the timestamps of every delivery are nested and ordered. */
    ghost predicate Safe()
      reads this
    {
      && (WellFormed(trace) ==> forall id :: id in table ==> VerdictJustified(trace, table[id], id))
      && (WellFormed(trace) && MonotoneTrace(trace) ==> forall id :: id in table ==> TimesOrdered(table[id]))
    }

    lemma ReachableIsSafe()
      requires Valid()
      ensures Safe()
    {
      hide Run, Justified, WellFormed, MonotoneTrace, TimesOrdered, IsAnswered;
      if WellFormed(trace) {
        forall id | id in table ensures VerdictJustified(trace, table[id], id) {
          if table[id].targetPeerSki != "" && IsAnswered(table[id].status) {
            AnsweredOnlyThroughCredit(trace, id);
          }
        }
        if MonotoneTrace(trace) {
          forall id | id in table ensures TimesOrdered(table[id]) {
            RunKeepsTimestampsOrdered(trace, id);
          }
        }
      }
    }

    ghost method Log(e: Event)
      requires State(pendingWrites, pendingReadbacks, table, attached) == Step(Run(trace), e)
      modifies this`trace
      ensures Valid() && Safe() && trace == old(trace) + [e]
    {
      hide Run, Step, Safe;
      RunExtends(trace, e);
      trace := trace + [e];
      ReachableIsSafe();
    }

    constructor ()
      ensures Valid() && trace == []
    {
      pendingWrites, pendingReadbacks, table, attached, trace := map[], map[], map[], false, [];
    }

    method Attach()
      requires Valid()
      modifies this
      ensures Valid() && Safe() && trace == old(trace) + [Attached]
      ensures attached && table == old(table)
      ensures pendingWrites == old(pendingWrites) && pendingReadbacks == old(pendingReadbacks)
    {
      hide Run, Apply;
      attached := true;
      Log(Attached);
    }

    method Clear()
      requires Valid()
      modifies this
      ensures Valid() && Safe() && trace == old(trace) + [Cleared]
      ensures !attached && table == old(table) && pendingWrites == map[] && pendingReadbacks == map[]
    {
      hide Run, Apply;
      pendingWrites, pendingReadbacks, attached := map[], map[], false;
      Log(Cleared);
    }

    method Create(id: string, delivery: Delivery)
      requires Valid()
      modifies this
      ensures Valid() && Safe() && trace == old(trace) + [Created(id, delivery)]
      ensures table == if id == "" || id in old(table) then old(table) else old(table)[id := delivery]
      ensures attached == old(attached) && pendingWrites == old(pendingWrites) &&
              pendingReadbacks == old(pendingReadbacks)
    {
      hide Run, Apply;
      if id !in table && id != "" {
        table := table[id := delivery];
      }
      Log(Created(id, delivery));
    }

    method RegisterPendingDelivery(peerSki: string, id: string, msgCounter: Option<int>, readbackCounter: Option<int>)
      modifies this`pendingWrites, this`pendingReadbacks
      ensures pendingWrites == Registered(old(pendingWrites), KeyOf(peerSki, msgCounter), id)
      ensures pendingReadbacks == Registered(old(pendingReadbacks), KeyOf(peerSki, readbackCounter), id)
      ensures IsRegistered(pendingWrites, old(pendingWrites), peerSki, msgCounter, id)
      ensures IsRegistered(pendingReadbacks, old(pendingReadbacks), peerSki, readbackCounter, id)
    {
      hide NormalizeSki;
      var ski := NormalizeSki(peerSki);
      if msgCounter.Some? {
        pendingWrites := pendingWrites[CounterKey(ski, msgCounter.value) := id];
      }
      if readbackCounter.Some? {
        pendingReadbacks := pendingReadbacks[CounterKey(ski, readbackCounter.value) := id];
      }
    }

    method DeliveryIdForCounter(ski: string, counter: Option<int>, write: bool, pop: bool) returns (id: string)
      modifies this`pendingWrites, this`pendingReadbacks
      ensures id == Found(if write then old(pendingWrites) else old(pendingReadbacks), KeyOf(ski, counter))
      ensures pendingWrites == if pop && write then Consumed(old(pendingWrites), KeyOf(ski, counter))
              else old(pendingWrites)
      ensures pendingReadbacks == if pop && !write then Consumed(old(pendingReadbacks), KeyOf(ski, counter))
              else old(pendingReadbacks)
    {
      hide NormalizeSki;
      if counter.None? {
        return "";
      }
      var key := CounterKey(NormalizeSki(ski), counter.value);
      var mapping := if write then pendingWrites else pendingReadbacks;
      id := if key in mapping then mapping[key] else "";
      if pop && write {
        pendingWrites := pendingWrites - {key};
      } else if pop {
        pendingReadbacks := pendingReadbacks - {key};
      }
    }

    method UpdateDelivery(id: string, status: Status, error: string, at: int)
      modifies this`table
      ensures table == if attached && id in old(table)
              then old(table)[id := Apply(old(table)[id], Update(status, error, at))]
                       else old(table)
      ensures OnlyStatus(table, old(table), attached, id, status)
      ensures attached && id in table && error != "" ==> table[id].lastError == error
    {
      hide Newest;
      if !attached {
        return;
      }
      UpdateDeliveryStatus(id, status, error, at);
    }

    method UpdateDeliveryStatus(id: string, status: Status, error: string, at: int)
      modifies this`table
      ensures table == if id in old(table) then old(table)[id := Apply(old(table)[id], Update(status, error, at))]
                       else old(table)
      ensures OnlyStatus(table, old(table), true, id, status)
    {
      hide Newest;
      if id in table {
        var delivery := Updated(table[id], status, error, at);
        table := table[id := delivery];
      }
    }

    /** The status update itself, field by field. */
    method Updated(d: Delivery, status: Status, error: string, at: int) returns (delivery: Delivery)
      ensures delivery == Apply(d, Update(status, error, at))
    {
      delivery := d.(status := status);
      if error != "" {
        delivery := delivery.(lastError := error);
      } else if status in {Status.Pending, Sent, Acknowledged, ReadbackConfirmed} {
        delivery := delivery.(lastError := "");
      }
      if status in {Sent, Acknowledged, ReadbackConfirmed} && delivery.sentAt.None? {
        delivery := delivery.(sentAt := Some(at));
      }
      if status in {Acknowledged, ReadbackConfirmed} && delivery.acknowledgedAt.None? {
        delivery := delivery.(acknowledgedAt := Some(at));
      }
      if status == ReadbackConfirmed {
        delivery := delivery.(readbackAt := Some(at));
      }
      var updates := delivery.updates + [Update(status, error, at)];
      var first := if |updates| > KEPT_UPDATES then |updates| - KEPT_UPDATES else 0;
      delivery := delivery.(updates := updates[first..]);
    }

    /** A send that has come back from the network: registered and marked sent, or returned to
        pending or failed by the kind of its error. */
    method FinishSend(id: string, peerSki: string, server: Option<SendOutcome>, client: Option<SendOutcome>, at: int)
      requires Valid() && id != ""
      modifies this
      ensures Valid() && Safe() && trace == old(trace) + [SendEvent(id, peerSki, server, client, at)]
      ensures attached == old(attached)
      ensures
        var sent := Answer(server, client, peerSki);
        && (sent.Delivered? ==>
              && IsRegistered(pendingWrites, old(pendingWrites), peerSki, sent.msgCounter, id)
              && IsRegistered(pendingReadbacks, old(pendingReadbacks), peerSki, sent.readbackCounter, id)
              && OnlyStatus(table, old(table), attached, id, Sent))
        && (sent.Refused? ==>
              && pendingWrites == old(pendingWrites) && pendingReadbacks == old(pendingReadbacks)
              && OnlyStatus(table, old(table), attached, id, if IsTransient(sent.error) then Status.Pending else Failed)
              && (attached && id in table && sent.error != "" && !IsTransient(sent.error) ==>
                    table[id].lastError == sent.error))
    {
      hide Run, Apply, Safe, NormalizeSki, IsTransient, NotConnectedError;
      ghost var e := SendEvent(id, peerSki, server, client, at);
      var chosen := if server.Some? && server.value.Delivered? then server else client;
      if chosen.Some? && chosen.value.Delivered? {
        RegisterPendingDelivery(peerSki, id, chosen.value.msgCounter, chosen.value.readbackCounter);
        UpdateDelivery(id, Sent, "", at);
      } else {
        var error := if chosen.Some? then chosen.value.error else NotConnectedError(peerSki);
        var transient := IsTransient(error);
        UpdateDelivery(id, if transient then Status.Pending else Failed, if transient then "" else error, at);
      }
      Log(e);
    }

    method ProcessWriteSent(ski: string, counter: Option<int>, at: int)
      requires Valid()
      modifies this
      ensures Valid() && Safe() && trace == old(trace) + [WriteSent(KeyOf(ski, counter), at)]
      ensures attached == old(attached)
      ensures pendingWrites == old(pendingWrites) && pendingReadbacks == old(pendingReadbacks)
      ensures IsPendingFor(pendingWrites, ski, counter) ==>
                OnlyStatus(table, old(table), attached, PendingFor(pendingWrites, ski, counter), Sent)
      ensures !IsPendingFor(pendingWrites, ski, counter) ==> table == old(table)
    {
      hide Run, Apply, NormalizeSki, RejectReason;
      KeyOfNormalized(ski, counter);
      var id := DeliveryIdForCounter(NormalizeSki(ski), counter, true, false);
      if id != "" {
        UpdateDelivery(id, Sent, "", at);
      }
      Log(WriteSent(KeyOf(ski, counter), at));
    }

    method ProcessWriteResult(ski: string, reference: Option<int>, errorNumber: Option<int>, description: string,
                              at: int)
      requires Valid()
      modifies this
      ensures Valid() && Safe()
      ensures
        var reason := RejectReason(description, errorNumber);
        trace == old(trace) + [WriteAnswered(KeyOf(ski, reference), errorNumber == Some(0), reason, at)]
      ensures attached == old(attached)
      ensures IsConsumed(pendingWrites, old(pendingWrites), ski, reference) && pendingReadbacks == old(pendingReadbacks)
      ensures IsPendingFor(old(pendingWrites), ski, reference) ==>
                OnlyStatus(table, old(table), attached, PendingFor(old(pendingWrites), ski, reference),
                           if errorNumber == Some(0) then Acknowledged else Rejected)
      ensures IsPendingFor(old(pendingWrites), ski, reference) && attached && errorNumber != Some(0) ==>
                var id := PendingFor(old(pendingWrites), ski, reference);
                id in table ==> table[id].lastError == RejectReason(description, errorNumber)
      ensures !IsPendingFor(old(pendingWrites), ski, reference) ==> table == old(table)
    {
      hide Run, Apply, NormalizeSki, RejectReason;
      KeyOfNormalized(ski, reference);
      var id := DeliveryIdForCounter(NormalizeSki(ski), reference, true, true);
      if id != "" {
        if errorNumber == Some(0) {
          UpdateDelivery(id, Acknowledged, "", at);
        } else {
          UpdateDelivery(id, Rejected, RejectReason(description, errorNumber), at);
        }
      }
      Log(WriteAnswered(KeyOf(ski, reference), errorNumber == Some(0), RejectReason(description, errorNumber), at));
    }

    /** A readback answer; one over an outbound session confirms only when it carries a limit state. */
    method ProcessReadback(ski: string, reference: Option<int>, confirmed: bool, at: int)
      requires Valid()
      modifies this
      ensures Valid() && Safe() && trace == old(trace) + [ReadbackAnswered(KeyOf(ski, reference), confirmed, at)]
      ensures attached == old(attached)
      ensures IsConsumed(pendingReadbacks, old(pendingReadbacks), ski, reference) && pendingWrites == old(pendingWrites)
      ensures confirmed && IsPendingFor(old(pendingReadbacks), ski, reference) ==>
                OnlyStatus(table, old(table), attached, PendingFor(old(pendingReadbacks), ski, reference),
                           ReadbackConfirmed)
      ensures !confirmed || !IsPendingFor(old(pendingReadbacks), ski, reference) ==> table == old(table)
    {
      hide Run, Apply, NormalizeSki, RejectReason;
      KeyOfNormalized(ski, reference);
      var id := DeliveryIdForCounter(NormalizeSki(ski), reference, false, true);
      if id != "" && confirmed {
        UpdateDelivery(id, ReadbackConfirmed, "", at);
      }
      Log(ReadbackAnswered(KeyOf(ski, reference), confirmed, at));
    }

    method FailPending(ids: seq<string>, error: string, at: int)
      requires Valid()
      modifies this
      ensures Valid() && Safe() && trace == old(trace) + LoopDowns(ids, error, at)
      ensures attached == old(attached) && table.Keys == old(table).Keys
      ensures forall id :: id in table ==> if attached && id != "" && id in ids then table[id].status == Failed
                                           else table[id] == old(table)[id]
    {
      hide Valid, Safe;
      for n := 0 to |ids|
        invariant Valid() && trace == old(trace) + LoopDowns(ids[..n], error, at)
        invariant attached == old(attached) && table.Keys == old(table).Keys
        invariant forall id :: id in table ==> if attached && id != "" && id in ids[..n] then table[id].status == Failed
                                               else table[id] == old(table)[id]
      {
        assert ids[..n + 1][..n] == ids[..n];
        if ids[n] != "" {
          FailOne(ids[n], error, at);
        }
      }
      assert ids[..|ids|] == ids;
      ReachableIsSafe();
    }

    method FailOne(id: string, error: string, at: int)
      requires Valid() && id != ""
      modifies this
      ensures Valid() && Safe() && trace == old(trace) + [LoopDown(id, error, at)]
      ensures attached == old(attached) && OnlyStatus(table, old(table), attached, id, Failed)
    {
      hide Run, Apply, Safe;
      UpdateDelivery(id, Failed, error, at);
      Log(LoopDown(id, error, at));
    }

    method RecordNativeOutcome(id: string, outcome: NativeOutcome, summary: string, at: int)
      requires Valid() && id != ""
      modifies this
      ensures Valid() && Safe() && trace == old(trace) + [NativePlanned(id, outcome, summary, at)]
      ensures table.Keys == old(table).Keys && forall other :: other in table && other != id ==>
              table[other] == old(table)[other]
      ensures id in table ==>
                var d := old(table)[id];
                if d.targetPeerSki == "" && d.controlPath != "eebus_spine" && d.status.Pending?
                then (match outcome
                      case NativeApplied => table[id].status == Acknowledged
                      case NativeFailed => table[id].status == Failed
                      case NativeSkipped => table[id].status == NotDeliverable)
                else table[id] == d
    {
      hide Run, Apply;
      if id in table {
        var delivery := table[id];
        if delivery.targetPeerSki == "" && delivery.controlPath != "eebus_spine" && delivery.status == Status.Pending {
          match outcome
          case NativeApplied => UpdateDeliveryStatus(id, Acknowledged, "", at);
          case NativeFailed => UpdateDeliveryStatus(id, Failed, summary, at);
          case NativeSkipped => UpdateDeliveryStatus(id, NotDeliverable, "", at);
        }
      }
      Log(NativePlanned(id, outcome, summary, at));
    }

    /** The deliveries a retry for `peerSki` sends: exactly the retryable ones, each once. */
    method SelectRetries(peerSki: string, constraints: map<string, Constraint>, now: int)
        returns (requests: seq<SendRequest>)
      ensures forall r :: r in requests ==>
                && r.id in table && Retryable(table[r.id], NormalizeSki(peerSki), constraints, now)
                && r == SendRequest(r.id, table[r.id].targetEndpointRef, NormalizeSki(peerSki),
                                    table[r.id].allocatedWatts)
      ensures forall i, j :: 0 <= i < j < |requests| ==> requests[i].id != requests[j].id
      ensures attached && NormalizeSki(peerSki) != "" ==>
                forall id :: id in table && Retryable(table[id], NormalizeSki(peerSki), constraints, now) ==>
                  exists r :: r in requests && r.id == id
      ensures !attached || NormalizeSki(peerSki) == "" ==> requests == []
    {
      hide NormalizeSki, IsTransient;
      requests := [];
      var peer := NormalizeSki(peerSki);
      if !attached || peer == "" {
        return;
      }
      var remaining := table.Keys;
      while remaining != {}
        invariant remaining <= table.Keys
        invariant forall r :: r in requests ==>
                    && r.id in table && r.id !in remaining && Retryable(table[r.id], peer, constraints, now)
                    && r == SendRequest(r.id, table[r.id].targetEndpointRef, peer, table[r.id].allocatedWatts)
        invariant forall i, j :: 0 <= i < j < |requests| ==> requests[i].id != requests[j].id
        invariant forall id :: id in table && id !in remaining && Retryable(table[id], peer, constraints, now) ==>
                    exists r :: r in requests && r.id == id
        decreases remaining
      {
        var id :| id in remaining;
        remaining := remaining - {id};
        var delivery := table[id];
        if delivery.targetPeerSki != peer || !delivery.isActive || delivery.status !in {Status.Pending, Failed} {
          continue;
        }
        if delivery.status == Failed && !IsTransient(delivery.lastError) {
          continue;
        }
        if delivery.constraintId !in constraints || !constraints[delivery.constraintId].isActive {
          continue;
        }
        var expiresAt := constraints[delivery.constraintId].expiresAt;
        if expiresAt.Some? && expiresAt.value <= now {
          continue;
        }
        if delivery.allocatedWatts <= 0 {
          continue;
        }
        var request := SendRequest(id, delivery.targetEndpointRef, delivery.targetPeerSki, delivery.allocatedWatts);
        forall i | 0 <= i < |requests| ensures requests[i].id != id { assert requests[i] in requests; }
        ghost var before := requests;
        requests := requests + [request];
        assert request in requests;
        assert forall r :: r in before ==> r in requests;
      }
    }
  }

  // ---- From a send to its answer -----------------------------------------------------

  /** A send that came back with a write counter, and the answer to that counter under any spelling of
      the peer: the delivery ends acknowledged for error number zero and rejected for any other. */
  method SendThenWriteResult(r: Runtime, id: string, peerSki: string, server: Option<SendOutcome>,
                             client: Option<SendOutcome>, ski: string, errorNumber: Option<int>, description: string,
                             at: int, later: int)
    requires r.Valid() && r.attached && id != "" && id in r.table
    requires Answer(server, client, peerSki).Delivered? && Answer(server, client, peerSki).msgCounter.Some?
    requires NormalizeSki(ski) == NormalizeSki(peerSki)
    modifies r
    ensures r.Valid() && id in r.table
    ensures r.table[id].status == if errorNumber == Some(0) then Acknowledged else Rejected
    ensures forall other :: other in old(r.table) && other != id ==>
            other in r.table && r.table[other] == old(r.table)[other]
  {
    hide NormalizeSki, Answer;
    r.FinishSend(id, peerSki, server, client, at);
    r.ProcessWriteResult(ski, Answer(server, client, peerSki).msgCounter, errorNumber, description, later);
  }

  /** The same for the readback counter and a readback that carries a limit state. */
  method SendThenReadback(r: Runtime, id: string, peerSki: string, server: Option<SendOutcome>,
                          client: Option<SendOutcome>, ski: string, at: int, later: int)
    requires r.Valid() && r.attached && id != "" && id in r.table
    requires Answer(server, client, peerSki).Delivered? && Answer(server, client, peerSki).readbackCounter.Some?
    requires NormalizeSki(ski) == NormalizeSki(peerSki)
    modifies r
    ensures r.Valid() && id in r.table && r.table[id].status == ReadbackConfirmed
    ensures forall other :: other in old(r.table) && other != id ==>
            other in r.table && r.table[other] == old(r.table)[other]
  {
    hide NormalizeSki, Answer;
    r.FinishSend(id, peerSki, server, client, at);
    r.ProcessReadback(ski, Answer(server, client, peerSki).readbackCounter, true, later);
  }

  /** An answer to a counter nobody has pending leaves every delivery as the send left it. */
  method SendThenStranger(r: Runtime, id: string, peerSki: string, server: Option<SendOutcome>,
                          client: Option<SendOutcome>, ski: string, reference: Option<int>, errorNumber: Option<int>,
                          description: string, at: int, later: int)
    requires r.Valid() && r.attached && id != "" && id in r.table
    requires Answer(server, client, peerSki).Delivered? && !IsPendingFor(r.pendingWrites, ski, reference)
    requires NormalizeSki(ski) != NormalizeSki(peerSki) || reference != Answer(server, client, peerSki).msgCounter
    modifies r
    ensures r.Valid() && id in r.table && r.table[id].status == Sent
    ensures forall other :: other in old(r.table) && other != id ==>
            other in r.table && r.table[other] == old(r.table)[other]
  {
    hide NormalizeSki, Answer;
    r.FinishSend(id, peerSki, server, client, at);
    StillNotPending(r.pendingWrites, old(r.pendingWrites), peerSki, Answer(server, client, peerSki).msgCounter, id, ski,
                    reference);
    r.ProcessWriteResult(ski, reference, errorNumber, description, later);
  }

  lemma StillNotPending(pending: Pending, was: Pending, peerSki: string, counter: Option<int>, id: string, ski: string,
                        reference: Option<int>)
    requires IsRegistered(pending, was, peerSki, counter, id) && !IsPendingFor(was, ski, reference)
    requires NormalizeSki(ski) != NormalizeSki(peerSki) || reference != counter
    ensures !IsPendingFor(pending, ski, reference)
  {
    hide NormalizeSki;
    if counter.Some? && reference.Some? {
      var key, other := CounterKey(NormalizeSki(peerSki), counter.value),
          CounterKey(NormalizeSki(ski), reference.value);
      assert key != other;
      assert other in pending ==> other in pending - {key} && (pending - {key})[other] == pending[other];
    }
  }
}
