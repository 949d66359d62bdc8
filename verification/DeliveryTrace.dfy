/** The delivery protocol as a state machine over its atomic steps, and what every run keeps. */
module DeliveryTrace {
  import opened Wrappers
  import opened DeliveryStatus
  import opened PeerLink

  datatype NativeOutcome = NativeApplied | NativeFailed | NativeSkipped

  /** One await-free stretch of the runtime. Peer and counter appear as the pending-map key they
      were turned into; the key is absent when the message carried no counter. */
  datatype Event =
    | Created(id: string, delivery: Delivery)
    | SendSucceeded(id: string, writeKey: Option<CounterKey>, readbackKey: Option<CounterKey>, at: int)
    | SendFailed(id: string, transient: bool, error: string, at: int)
    | WriteSent(key: Option<CounterKey>, at: int)
    | WriteAnswered(key: Option<CounterKey>, accepted: bool, reason: string, at: int)
    | ReadbackAnswered(key: Option<CounterKey>, confirmed: bool, at: int)
    | LoopDown(id: string, error: string, at: int)
    | NativePlanned(id: string, outcome: NativeOutcome, summary: string, at: int)
    | Attached
    | Cleared

  type Pending = map<CounterKey, string>

  datatype State = State(writes: Pending, readbacks: Pending, table: map<string, Delivery>, attached: bool)

  /** The key a send registers in the write or the readback map. */
  function RegisteredKey(e: Event, write: bool): Option<CounterKey> {
    if !e.SendSucceeded? then None else if write then e.writeKey else e.readbackKey
  }

  /** The key an answer consumes from the write or the readback map. */
  function AnsweredKey(e: Event, write: bool): Option<CounterKey> {
    if write && e.WriteAnswered? then e.key
    else if !write && e.ReadbackAnswered? then e.key
    else None
  }

  function PendingAfter(pending: Pending, e: Event, write: bool): Pending {
    if e.Cleared? then map[]
    else if RegisteredKey(e, write).Some? then pending[RegisteredKey(e, write).value := e.id]
    else if AnsweredKey(e, write).Some? then pending - {AnsweredKey(e, write).value}
    else pending
  }

  function Found(pending: Pending, key: Option<CounterKey>): string {
    if key.Some? && key.value in pending then pending[key.value] else ""
  }

  /** Native dispatch results are credited only to pending deliveries without an EEBUS target. */
  predicate NativeEligible(d: Delivery) {
    d.targetPeerSki == "" && d.controlPath != "eebus_spine" && d.status.Pending?
  }

  function NativeUpdate(outcome: NativeOutcome, summary: string, at: int): Update {
    match outcome
    case NativeApplied => Update(Acknowledged, "", at)
    case NativeFailed => Update(Failed, summary, at)
    case NativeSkipped => Update(NotDeliverable, "", at)
  }

  predicate HasTime(e: Event) { !e.Created? && !e.Attached? && !e.Cleared? }

  /** The update an event carries, if any. */
  function UpdateOf(e: Event): (u: Option<Update>)
    ensures u.Some? ==> HasTime(e) && u.value.at == e.at
  {
    match e
    case SendSucceeded(_, _, _, at) => Some(Update(Sent, "", at))
    case SendFailed(_, transient, error, at) =>
      Some(if transient then Update(Status.Pending, "", at) else Update(Failed, error, at))
    case WriteSent(_, at) => Some(Update(Sent, "", at))
    case WriteAnswered(_, accepted, reason, at) =>
      Some(if accepted then Update(Acknowledged, "", at) else Update(Rejected, reason, at))
    case ReadbackAnswered(_, confirmed, at) => if confirmed then Some(Update(ReadbackConfirmed, "", at)) else None
    case LoopDown(_, error, at) => Some(Update(Failed, error, at))
    case NativePlanned(_, outcome, summary, at) => Some(NativeUpdate(outcome, summary, at))
    case _ => None
  }

  /** The delivery an event is about; answers name theirs through the pending maps. */
  function SubjectOf(s: State, e: Event): string {
    match e
    case WriteSent(key, _) => Found(s.writes, key)
    case WriteAnswered(key, _, _, _) => Found(s.writes, key)
    case ReadbackAnswered(key, _, _) => Found(s.readbacks, key)
    case SendSucceeded(id, _, _, _) => id
    case SendFailed(id, _, _, _) => id
    case LoopDown(id, _, _) => id
    case NativePlanned(id, _, _, _) => id
    case _ => ""
  }

  predicate Updates(s: State, e: Event, id: string) {
    && id != "" && SubjectOf(s, e) == id && id in s.table && UpdateOf(e).Some?
    && (if e.NativePlanned? then NativeEligible(s.table[id]) else s.attached)
  }

  function TableAfter(s: State, e: Event): map<string, Delivery> {
    if e.Created? then (if e.id in s.table || e.id == "" then s.table else s.table[e.id := e.delivery])
    else
      var id := SubjectOf(s, e);
      if Updates(s, e, id) then s.table[id := Apply(s.table[id], UpdateOf(e).value)] else s.table
  }

  function AttachedAfter(attached: bool, e: Event): bool {
    if e.Attached? then true else if e.Cleared? then false else attached
  }

  function Step(s: State, e: Event): State {
    State(PendingAfter(s.writes, e, true), PendingAfter(s.readbacks, e, false), TableAfter(s, e),
          AttachedAfter(s.attached, e))
  }

  function Run(trace: seq<Event>): State {
    if trace == [] then State(map[], map[], map[], false)
    else Step(Run(trace[..|trace| - 1]), trace[|trace| - 1])
  }

  lemma RunExtends(trace: seq<Event>, e: Event)
    ensures Run(trace + [e]) == Step(Run(trace), e)
  {
    assert (trace + [e])[..|trace|] == trace;
  }

  /** What one step can do to one delivery. */
  lemma StepOnDelivery(s: State, e: Event, id: string)
    requires id in TableAfter(s, e)
    ensures Updates(s, e, id) ==> UpdateOf(e).Some? && HasTime(e)
    ensures id !in s.table ==> e.Created? && TableAfter(s, e)[id] == e.delivery
    ensures id in s.table ==>
              TableAfter(s, e)[id] == if Updates(s, e, id) then Apply(s.table[id], UpdateOf(e).value) else s.table[id]
  {
  }

  /** New deliveries enter without timestamps, in one of the three initial states. */
  ghost predicate WellFormed(trace: seq<Event>) {
    forall e :: e in trace && e.Created? ==>
      Untouched(e.delivery) && e.delivery.status in {Status.Pending, SkippedZeroAllocation, NotDeliverable}
  }

  // ---- What the pending maps mean ----------------------------------------------------

  function PendingOf(s: State, write: bool): Pending {
    if write then s.writes else s.readbacks
  }

  ghost predicate Disturbs(e: Event, write: bool, key: CounterKey) {
    e.Cleared? || RegisteredKey(e, write) == Some(key) || AnsweredKey(e, write) == Some(key)
  }

  /** At position `p` the registration made at `q` is the latest word on `key`. */
  ghost predicate OpenAt(trace: seq<Event>, q: int, p: int, write: bool, key: CounterKey) {
    && 0 <= q < p <= |trace|
    && RegisteredKey(trace[q], write) == Some(key)
    && forall i :: q < i < p ==> !Disturbs(trace[i], write, key)
  }

  /** A counter is pending exactly when a send registered it and nothing has consumed, replaced or
      cleared it since; it is pending for the delivery of that latest send. */
  lemma {:induction false} PendingIffOpen(trace: seq<Event>, write: bool, key: CounterKey)
    ensures key in PendingOf(Run(trace), write) <==> exists q :: OpenAt(trace, q, |trace|, write, key)
    ensures forall q :: OpenAt(trace, q, |trace|, write, key) && key in PendingOf(Run(trace), write) ==>
              PendingOf(Run(trace), write)[key] == trace[q].id
  {
    if trace != [] {
      var n := |trace| - 1;
      var front := trace[..n];
      PendingIffOpen(front, write, key);
      if RegisteredKey(trace[n], write) == Some(key) {
        assert OpenAt(trace, n, |trace|, write, key);
        forall q | OpenAt(trace, q, |trace|, write, key) ensures q == n {
          if q < n { assert Disturbs(trace[n], write, key); }
        }
      } else {
        forall q ensures OpenAt(trace, q, |trace|, write, key) <==>
          OpenAt(front, q, n, write, key) && !Disturbs(trace[n], write, key) {
          OpenExtends(trace, q, n, write, key);
        }
      }
    }
  }

  lemma OpenExtends(trace: seq<Event>, q: int, n: int, write: bool, key: CounterKey)
    requires trace != [] && n == |trace| - 1 && RegisteredKey(trace[n], write) != Some(key)
    ensures OpenAt(trace, q, |trace|, write, key) <==>
            OpenAt(trace[..n], q, n, write, key) && !Disturbs(trace[n], write, key)
  {
    if OpenAt(trace[..n], q, n, write, key) && !Disturbs(trace[n], write, key) {
      forall i | q < i < |trace| ensures !Disturbs(trace[i], write, key) {
        if i < n { assert trace[i] == trace[..n][i]; }
      }
    }
  }

  /** The answer at `p` is credited to the send at `q`. */
  ghost predicate Credits(trace: seq<Event>, p: int, q: int, write: bool) {
    && 0 <= p < |trace|
    && AnsweredKey(trace[p], write).Some?
    && OpenAt(trace, q, p, write, AnsweredKey(trace[p], write).value)
  }

  /** Each registration is consumed at most once, and each answer credits at most one send. */
  lemma CreditIsOneToOne(trace: seq<Event>, p: int, q: int, p': int, q': int, write: bool)
    requires Credits(trace, p, q, write) && Credits(trace, p', q', write)
    ensures p == p' <==> q == q'
  {
    var key, key' := AnsweredKey(trace[p], write).value, AnsweredKey(trace[p'], write).value;
    assert Disturbs(trace[p], write, key) && Disturbs(trace[p'], write, key');
    assert Disturbs(trace[q], write, key) && Disturbs(trace[q'], write, key');
  }

  predicate IsAnswered(s: Status) { s in {Acknowledged, Rejected, ReadbackConfirmed} }

  /** The status an answer stands for. */
  function Verdict(e: Event): Option<Status> {
    match e
    case WriteAnswered(_, accepted, _, _) => Some(if accepted then Acknowledged else Rejected)
    case ReadbackAnswered(_, true, _) => Some(ReadbackConfirmed)
    case _ => None
  }

  ghost predicate Justified(trace: seq<Event>, id: string, status: Status) {
    exists p, q, write :: Credits(trace, p, q, write) && trace[q].id == id && Verdict(trace[p]) == Some(status)
  }

  lemma JustifiedExtends(trace: seq<Event>, id: string, status: Status)
    requires trace != [] && Justified(trace[..|trace| - 1], id, status)
    ensures Justified(trace, id, status)
  {
    var front := trace[..|trace| - 1];
    var p, q, write :| Credits(front, p, q, write) && front[q].id == id && Verdict(front[p]) == Some(status);
    var key := AnsweredKey(front[p], write).value;
    forall i | q < i < p ensures !Disturbs(trace[i], write, key) { assert trace[i] == front[i]; }
    assert Credits(trace, p, q, write);
  }

  /** A delivery with a peer gets a new verdict only by an answer that finds it pending. */
  lemma NewVerdictIsAnswer(s: State, e: Event, id: string)
    requires e.Created? ==> !IsAnswered(e.delivery.status)
    requires id in TableAfter(s, e) && TableAfter(s, e)[id].targetPeerSki != "" &&
             IsAnswered(TableAfter(s, e)[id].status)
    requires id in s.table ==> s.table[id].status != TableAfter(s, e)[id].status
    ensures
      var key := AnsweredKey(e, e.WriteAnswered?);
      && key.Some? && key.value in PendingOf(s, e.WriteAnswered?) && PendingOf(s, e.WriteAnswered?)[key.value] == id
      && Verdict(e) == Some(TableAfter(s, e)[id].status)
  {
    hide PendingAfter;
    assert id in s.table;
    assert Updates(s, e, id);
  }

  lemma PeerIsFixed(s: State, e: Event, id: string)
    requires id in s.table
    ensures id in TableAfter(s, e) && TableAfter(s, e)[id].targetPeerSki == s.table[id].targetPeerSki
  {
  }

  lemma NewIsUnanswered(trace: seq<Event>, e: Event)
    requires WellFormed(trace) && e in trace
    ensures e.Created? ==> !IsAnswered(e.delivery.status)
  {
  }

  /** Safety over every run: an EEBUS delivery is acknowledged, rejected or readback-confirmed only
      through an answer with that verdict, credited to a send of this very delivery. */
  lemma {:induction false} AnsweredOnlyThroughCredit(trace: seq<Event>, id: string)
    requires WellFormed(trace)
    requires id in Run(trace).table && Run(trace).table[id].targetPeerSki != ""
    requires IsAnswered(Run(trace).table[id].status)
    ensures Justified(trace, id, Run(trace).table[id].status)
  {
    hide Disturbs, PendingAfter, TableAfter, IsAnswered;
    var n := |trace| - 1;
    var front, e := trace[..n], trace[n];
    var s, t := Run(front), Run(trace);
    assert e in trace && !(e.Created? && IsAnswered(e.delivery.status)) by { NewIsUnanswered(trace, e); }
    assert t.table == TableAfter(s, e);
    if id in s.table && s.table[id].status == t.table[id].status {
      PeerIsFixed(s, e, id);
      AnsweredOnlyThroughCredit(front, id);
      JustifiedExtends(trace, id, t.table[id].status);
    } else {
      NewVerdictIsAnswer(s, e, id);
      var write := e.WriteAnswered?;
      var key := AnsweredKey(e, write).value;
      PendingIffOpen(front, write, key);
      var q :| OpenAt(front, q, n, write, key);
      forall i | q < i < n ensures !Disturbs(trace[i], write, key) { assert trace[i] == front[i]; }
      assert Credits(trace, n, q, write);
    }
  }

  /** What coming back from the network makes of a delivery: sent, waiting for a retry after a failure on
      the way, or failed with the error; a dead event loop fails it as well. */
  lemma SendSetsStatus(s: State, e: Event, id: string)
    requires id != "" && id in s.table && s.attached && Sends(e, id)
    ensures id in Step(s, e).table
    ensures
      var d := Step(s, e).table[id];
      && (e.SendSucceeded? ==> d.status == Sent && d.sentAt.Some?)
      && (e.SendFailed? && e.transient ==> d.status == Status.Pending && d.lastError == "")
      && (e.SendFailed? && !e.transient ==> d.status == Failed && (e.error != "" ==> d.lastError == e.error))
      && (e.LoopDown? ==> d.status == Failed && (e.error != "" ==> d.lastError == e.error))
  {
    hide PendingAfter;
  }

  // ---- How long a verdict lasts ------------------------------------------------------

  /** The events that replace the verdict `verdict` of the EEBUS delivery `id`: another send of it, a dead
      event loop, the echo of a write or an answer to a write that is still pending for it and says
      something else, or a confirming readback that is. */
  predicate Replaces(s: State, e: Event, id: string, verdict: Status) {
    s.attached &&
    match e
    case SendSucceeded(of, _, _, _) => of == id
    case SendFailed(of, _, _, _) => of == id
    case LoopDown(of, _, _) => of == id
    case WriteSent(key, _) => Found(s.writes, key) == id
    case WriteAnswered(key, accepted, _, _) =>
      Found(s.writes, key) == id && verdict != if accepted then Acknowledged else Rejected
    case ReadbackAnswered(key, confirmed, _) =>
      Found(s.readbacks, key) == id && confirmed && verdict != ReadbackConfirmed
    case _ => false
  }

  /** A delivery that is an EEBUS one and has a verdict. */
  predicate HasVerdict(s: State, id: string) {
    id in s.table && id != "" && s.table[id].targetPeerSki != "" && IsAnswered(s.table[id].status)
  }

  /** One step changes a verdict exactly when its event is one of those. */
  lemma VerdictChangesIff(s: State, e: Event, id: string)
    requires HasVerdict(s, id)
    ensures id in Step(s, e).table && Step(s, e).table[id].targetPeerSki == s.table[id].targetPeerSki
    ensures Step(s, e).table[id].status != s.table[id].status <==> Replaces(s, e, id, s.table[id].status)
  {
    hide PendingAfter;
    PeerIsFixed(s, e, id);
  }

  /** Over all runs: a verdict that no longer holds was replaced by one of those events while it held. */
  lemma {:induction false} VerdictLostOnlyBy(trace: seq<Event>, later: seq<Event>, id: string)
    requires HasVerdict(Run(trace), id)
    ensures id in Run(trace + later).table
    ensures Run(trace + later).table[id].status != Run(trace).table[id].status ==>
              exists n :: 0 <= n < |later| && Lost(trace, later, n, id)
  {
    hide Run, Step, Replaces, HasVerdict;
    if later == [] {
      assert trace + later == trace;
      InTable(Run(trace), id);
    } else {
      var n := |later| - 1;
      VerdictLostOnlyBy(trace, later[..n], id);
      RunExtends(trace + later[..n], later[n]);
      assert trace + later == trace + later[..n] + [later[n]];
      VerdictAfterMore(trace, later, id);
    }
  }

  lemma InTable(s: State, id: string)
    requires HasVerdict(s, id)
    ensures id in s.table
  {
  }

  /** At position n of `later` the verdict of `trace` still holds, and the event there replaces it. */
  ghost predicate Lost(trace: seq<Event>, later: seq<Event>, n: int, id: string)
    requires 0 <= n < |later|
  {
    var s, t := Run(trace), Run(trace + later[..n]);
    HasVerdict(s, id) && HasVerdict(t, id) && t.table[id].status == s.table[id].status &&
    Replaces(t, later[n], id, s.table[id].status)
  }

  lemma VerdictAfterMore(trace: seq<Event>, later: seq<Event>, id: string)
    requires later != [] && HasVerdict(Run(trace), id)
    requires
      var n := |later| - 1;
      && Run(trace + later) == Step(Run(trace + later[..n]), later[n])
      && id in Run(trace + later[..n]).table
      && (Run(trace + later[..n]).table[id].status != Run(trace).table[id].status ==>
            exists m :: 0 <= m < n && Lost(trace, later[..n], m, id))
    ensures id in Run(trace + later).table
    ensures Run(trace + later).table[id].status != Run(trace).table[id].status ==>
              exists m :: 0 <= m < |later| && Lost(trace, later, m, id)
  {
    hide Run, Step, Replaces, HasVerdict, Lost;
    var n := |later| - 1;
    var s, t := Run(trace), Run(trace + later[..n]);
    InTable(s, id);
    StillInTable(t, later[n], id);
    if t.table[id].status != s.table[id].status {
      var m :| 0 <= m < n && Lost(trace, later[..n], m, id);
      LostBefore(trace, later, m, id);
    } else {
      PeerOverRun(trace, later[..n], id);
      LostLast(trace, later, id);
    }
  }

  lemma LostBefore(trace: seq<Event>, later: seq<Event>, m: int, id: string)
    requires 0 <= m < |later| - 1 && Lost(trace, later[..|later| - 1], m, id)
    ensures Lost(trace, later, m, id)
  {
    hide Run, Replaces, HasVerdict;
    assert later[..|later| - 1][..m] == later[..m];
  }

  lemma LostLast(trace: seq<Event>, later: seq<Event>, id: string)
    requires later != [] && HasVerdict(Run(trace), id)
    requires
      var n := |later| - 1;
      var s, t := Run(trace), Run(trace + later[..n]);
      && Run(trace + later) == Step(t, later[n])
      && id in t.table && t.table[id].status == s.table[id].status
      && t.table[id].targetPeerSki == s.table[id].targetPeerSki
      && id in Run(trace + later).table
    ensures Run(trace + later).table[id].status != Run(trace).table[id].status ==> Lost(trace, later, |later| - 1, id)
  {
    hide Run, Step, Replaces;
    VerdictChangesIff(Run(trace + later[..|later| - 1]), later[|later| - 1], id);
  }

  lemma StillInTable(s: State, e: Event, id: string)
    requires id in s.table
    ensures id in Step(s, e).table && Step(s, e).table[id].targetPeerSki == s.table[id].targetPeerSki
  {
    PeerIsFixed(s, e, id);
  }

  lemma {:induction false} PeerOverRun(trace: seq<Event>, later: seq<Event>, id: string)
    requires id in Run(trace).table
    ensures id in Run(trace + later).table
    ensures Run(trace + later).table[id].targetPeerSki == Run(trace).table[id].targetPeerSki
  {
    hide Run, Step;
    if later == [] {
      assert trace + later == trace;
    } else {
      var n := |later| - 1;
      PeerOverRun(trace, later[..n], id);
      assert trace + later == trace + later[..n] + [later[n]];
      RunExtends(trace + later[..n], later[n]);
      StillInTable(Run(trace + later[..n]), later[n], id);
    }
  }

  /** No counter is pending for the delivery. */
  ghost predicate NothingPending(s: State, id: string) {
    && (forall key :: key in s.writes ==> s.writes[key] != id)
    && (forall key :: key in s.readbacks ==> s.readbacks[key] != id)
  }

  /** The event is an outcome of a send of the delivery, or says that it could not be sent. */
  predicate Sends(e: Event, id: string) {
    (e.SendSucceeded? || e.SendFailed? || e.LoopDown?) && e.id == id
  }

  lemma NothingPendingStays(s: State, e: Event, id: string)
    requires NothingPending(s, id) && !Sends(e, id)
    ensures NothingPending(Step(s, e), id)
  {
    hide TableAfter, AttachedAfter;
  }

  lemma NothingPendingReplaces(s: State, e: Event, id: string, verdict: Status)
    requires NothingPending(s, id) && !Sends(e, id) && id != ""
    ensures !Replaces(s, e, id, verdict)
  {
  }

  /** Once no counter is pending for it and it is not sent again, a verdict lasts for ever. */
  lemma {:induction false} SettledVerdictLasts(trace: seq<Event>, later: seq<Event>, id: string)
    requires HasVerdict(Run(trace), id) && NothingPending(Run(trace), id)
    requires forall i :: 0 <= i < |later| ==> !Sends(later[i], id)
    ensures HasVerdict(Run(trace + later), id) && NothingPending(Run(trace + later), id)
    ensures Run(trace + later).table[id].status == Run(trace).table[id].status
  {
    hide Run, Step, Replaces, Sends, NothingPending;
    if later == [] {
      assert trace + later == trace;
    } else {
      var n := |later| - 1;
      SettledVerdictLasts(trace, later[..n], id);
      assert trace + later == trace + later[..n] + [later[n]];
      RunExtends(trace + later[..n], later[n]);
      var s := Run(trace + later[..n]);
      NothingPendingStays(s, later[n], id);
      NothingPendingReplaces(s, later[n], id, s.table[id].status);
      VerdictChangesIff(s, later[n], id);
    }
  }

  /** A readback confirmation does not last when the write is answered after it: the delivery ends
      as acknowledged, or even as rejected. */
  lemma LateAnswerReplacesReadback(id: string, d: Delivery, write: CounterKey, readback: CounterKey, accepted: bool)
    requires id != ""
    ensures
      var s := Run([Attached, Created(id, d), SendSucceeded(id, Some(write), Some(readback), 1),
                    ReadbackAnswered(Some(readback), true, 2)]);
      var t := Run([Attached, Created(id, d), SendSucceeded(id, Some(write), Some(readback), 1),
                    ReadbackAnswered(Some(readback), true, 2), WriteAnswered(Some(write), accepted, "", 3)]);
      && id in s.table && s.table[id].status == ReadbackConfirmed
      && id in t.table && t.table[id].status == if accepted then Acknowledged else Rejected
  {
    hide Run, Apply, Step;
    var a, b, c := Attached, Created(id, d), SendSucceeded(id, Some(write), Some(readback), 1);
    var e, f := ReadbackAnswered(Some(readback), true, 2), WriteAnswered(Some(write), accepted, "", 3);
    RunExtends([], a);
    RunExtends([a], b);
    RunExtends([a, b], c);
    RunExtends([a, b, c], e);
    RunExtends([a, b, c, e], f);
    assert [] + [a] == [a] && [a] + [b] == [a, b] && [a, b] + [c] == [a, b, c];
    assert [a, b, c] + [e] == [a, b, c, e] && [a, b, c, e] + [f] == [a, b, c, e, f];
    RunOfNothing();
    SendAndConfirm(id, d, write, readback);
    AnswerWrite(Run([a, b, c, e]), id, write, accepted);
  }

  lemma RunOfNothing()
    ensures Run([]) == State(map[], map[], map[], false)
  {
  }

  lemma SendAndConfirm(id: string, d: Delivery, write: CounterKey, readback: CounterKey)
    requires id != ""
    ensures
      var sent := Step(Step(Step(State(map[], map[], map[], false), Attached), Created(id, d)),
                       SendSucceeded(id, Some(write), Some(readback), 1));
      var s := Step(sent, ReadbackAnswered(Some(readback), true, 2));
      && s.attached && id in s.table && s.table[id].status == ReadbackConfirmed
      && write in s.writes && s.writes[write] == id
  {
  }

  lemma AnswerWrite(s: State, id: string, write: CounterKey, accepted: bool)
    requires id != "" && s.attached && id in s.table && write in s.writes && s.writes[write] == id
    ensures
      var t := Step(s, WriteAnswered(Some(write), accepted, "", 3));
      id in t.table && t.table[id].status == if accepted then Acknowledged else Rejected
  {
  }

  /** Conversely a credited answer takes effect at once: while the runtime is attached, the
      delivery of the credited send gets the verdict. */
  lemma CreditedAnswerTakesEffect(trace: seq<Event>, q: int, write: bool)
    requires trace != []
    ensures
      var p := |trace| - 1;
      var before, after := Run(trace[..p]), Run(trace);
      Credits(trace, p, q, write) && Verdict(trace[p]).Some? && before.attached
      && trace[q].id != "" && trace[q].id in before.table ==>
        trace[q].id in after.table && after.table[trace[q].id].status == Verdict(trace[p]).value
  {
    var p := |trace| - 1;
    if Credits(trace, p, q, write) {
      var key := AnsweredKey(trace[p], write).value;
      PendingIffOpen(trace[..p], write, key);
      assert OpenAt(trace[..p], q, p, write, key) by {
        forall i | q < i < p ensures !Disturbs(trace[..p][i], write, key) { assert trace[..p][i] == trace[i]; }
      }
    }
  }

  /** An answer that no open registration matches changes nothing at all. */
  lemma UnmatchedAnswerIsIgnored(trace: seq<Event>, e: Event)
    requires e.WriteAnswered? || e.ReadbackAnswered?
    requires forall q, key :: AnsweredKey(e, e.WriteAnswered?) == Some(key) ==>
             !OpenAt(trace, q, |trace|, e.WriteAnswered?, key)
    ensures Run(trace + [e]) == Run(trace)
  {
    hide Run, OpenAt;
    RunExtends(trace, e);
    var s, write := Run(trace), e.WriteAnswered?;
    if AnsweredKey(e, write).Some? {
      var key := AnsweredKey(e, write).value;
      PendingIffOpen(trace, write, key);
      assert key !in PendingOf(s, write);
      assert PendingOf(s, write) - {key} == PendingOf(s, write);
    }
    assert TableAfter(s, e) == s.table;
  }

  // ---- Timestamps over whole runs ----------------------------------------------------

  ghost predicate MonotoneTrace(trace: seq<Event>) {
    forall i, j :: 0 <= i < j < |trace| && HasTime(trace[i]) && HasTime(trace[j]) ==> trace[i].at <= trace[j].at
  }

  ghost predicate AllBy(trace: seq<Event>, now: int) {
    forall i :: 0 <= i < |trace| && HasTime(trace[i]) ==> trace[i].at <= now
  }

  /** Every delivery is some fresh delivery followed by a monotone history of updates. */
  lemma {:induction false} DeliveryHasHistory(trace: seq<Event>, id: string, now: int)
      returns (created: Delivery, history: seq<Update>)
    requires WellFormed(trace) && MonotoneTrace(trace) && AllBy(trace, now)
    requires id in Run(trace).table
    ensures Untouched(created) && After(created, history) == Run(trace).table[id]
    ensures DeliveryStatus.Monotone(history)
    ensures forall i :: 0 <= i < |history| ==> history[i].at <= now
  {
    hide TableAfter, Apply, Updates;
    var n := |trace| - 1;
    var front, e := trace[..n], trace[n];
    var s := Run(front);
    assert e in trace;
    StepOnDelivery(s, e, id);
    if id !in s.table {
      return e.delivery, [];
    }
    StepOnDelivery(s, e, id);
    created, history := DeliveryHasHistory(front, id, if HasTime(e) then e.at else now);
    if Updates(s, e, id) {
      var longer := history + [UpdateOf(e).value];
      assert longer[..|history|] == history;
      history := longer;
    }
  }

  lemma {:induction false} LatestTime(trace: seq<Event>) returns (now: int)
    ensures AllBy(trace, now)
  {
    now := 0;
    if trace != [] {
      var n := |trace| - 1;
      now := LatestTime(trace[..n]);
      forall i | 0 <= i < n && HasTime(trace[i]) ensures trace[i].at <= now { assert trace[i] == trace[..n][i]; }
      if HasTime(trace[n]) && trace[n].at > now {
        now := trace[n].at;
      }
    }
  }

  /** In every run under a monotone clock, every delivery's timestamps are ordered and nested. */
  lemma RunKeepsTimestampsOrdered(trace: seq<Event>, id: string)
    requires WellFormed(trace) && MonotoneTrace(trace)
    requires id in Run(trace).table
    ensures TimesOrdered(Run(trace).table[id]) && |Run(trace).table[id].updates| <= KEPT_UPDATES
  {
    var now := LatestTime(trace);
    var created, history := DeliveryHasHistory(trace, id, now);
    TimestampsAreOrdered(created, history);
    FieldsSummarizeHistory(created, history);
  }
}
