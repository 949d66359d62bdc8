/** The life of one load-control delivery: status, timestamps and the bounded update list. */
module DeliveryStatus {
  import opened Wrappers

  const KEPT_UPDATES := 20

  datatype Status =
    | Pending | Sent | Acknowledged | Rejected | ReadbackConfirmed | Failed
    | SkippedZeroAllocation | NotDeliverable

  datatype Update = Update(status: Status, error: string, at: int)

  datatype Delivery = Delivery(
    constraintId: string,
    targetEndpointRef: string,
    targetPeerSki: string,
    controlPath: string,
    allocatedWatts: int,
    isActive: bool,
    status: Status,
    lastError: string,
    sentAt: Option<int>,
    acknowledgedAt: Option<int>,
    readbackAt: Option<int>,
    updates: seq<Update>)

  predicate MarksSent(s: Status) { s in {Sent, Acknowledged, ReadbackConfirmed} }

  predicate MarksAcknowledged(s: Status) { s in {Acknowledged, ReadbackConfirmed} }

  predicate ClearsError(s: Status) { s in {Pending, Sent, Acknowledged, ReadbackConfirmed} }

  function Newest(updates: seq<Update>): (r: seq<Update>)
    ensures |r| <= KEPT_UPDATES
  {
    if |updates| > KEPT_UPDATES then updates[|updates| - KEPT_UPDATES..] else updates
  }

  function Apply(d: Delivery, u: Update): (r: Delivery)
    ensures r.(status := d.status, lastError := d.lastError, sentAt := d.sentAt,
               acknowledgedAt := d.acknowledgedAt, readbackAt := d.readbackAt, updates := d.updates) == d
  {
    d.(status := u.status,
       lastError := if u.error != "" then u.error else if ClearsError(u.status) then "" else d.lastError,
       sentAt := if MarksSent(u.status) && d.sentAt.None? then Some(u.at) else d.sentAt,
       acknowledgedAt := if MarksAcknowledged(u.status) && d.acknowledgedAt.None? then Some(u.at) else d.acknowledgedAt,
       readbackAt := if u.status == ReadbackConfirmed then Some(u.at) else d.readbackAt,
       updates := Newest(d.updates + [u]))
  }

  function After(d: Delivery, history: seq<Update>): Delivery {
    if history == [] then d
    else Apply(After(d, history[..|history| - 1]), history[|history| - 1])
  }

  ghost predicate Untouched(d: Delivery) {
    d.sentAt.None? && d.acknowledgedAt.None? && d.readbackAt.None? && d.updates == []
  }

  /** `t` is the time of the first entry whose status satisfies `p`; None when there is none. */
  ghost predicate IsFirst(history: seq<Update>, p: Status -> bool, t: Option<int>) {
    match t
    case None => forall i :: 0 <= i < |history| ==> !p(history[i].status)
    case Some(at) =>
      exists i :: 0 <= i < |history| && p(history[i].status) && history[i].at == at
                  && forall j :: 0 <= j < i ==> !p(history[j].status)
  }

  ghost predicate IsLast(history: seq<Update>, p: Status -> bool, t: Option<int>) {
    match t
    case None => forall i :: 0 <= i < |history| ==> !p(history[i].status)
    case Some(at) =>
      exists i :: 0 <= i < |history| && p(history[i].status) && history[i].at == at
                  && forall j :: i < j < |history| ==> !p(history[j].status)
  }

  predicate IsReadback(s: Status) { s == ReadbackConfirmed }

  /** What the stored fields say about the full history: sent and acknowledged are the first such
      moments, readback the last one, and the update list is the newest twenty entries. */
  lemma FieldsSummarizeHistory(d: Delivery, history: seq<Update>)
    requires Untouched(d)
    ensures
      var r := After(d, history);
      && IsFirst(history, MarksSent, r.sentAt)
      && IsFirst(history, MarksAcknowledged, r.acknowledgedAt)
      && IsLast(history, IsReadback, r.readbackAt)
      && r.updates == Newest(history)
      && (history != [] ==> r.status == history[|history| - 1].status)
  {
    TimesSummarizeHistory(d, history);
    UpdatesAreNewest(d, history);
  }

  lemma {:induction false} TimesSummarizeHistory(d: Delivery, history: seq<Update>)
    requires Untouched(d)
    ensures
      var r := After(d, history);
      && IsFirst(history, MarksSent, r.sentAt)
      && IsFirst(history, MarksAcknowledged, r.acknowledgedAt)
      && IsLast(history, IsReadback, r.readbackAt)
  {
    hide IsFirst, IsLast, Newest, ClearsError;
    if history == [] {
      NothingHappened(d);
    } else {
      var front, u := history[..|history| - 1], history[|history| - 1];
      TimesSummarizeHistory(d, front);
      FirstExtends(front, u, MarksSent, After(d, front).sentAt);
      FirstExtends(front, u, MarksAcknowledged, After(d, front).acknowledgedAt);
      LastExtends(front, u, IsReadback, After(d, front).readbackAt);
      assert history == front + [u];
    }
  }

  lemma NothingHappened(d: Delivery)
    requires Untouched(d)
    ensures IsFirst([], MarksSent, d.sentAt) && IsFirst([], MarksAcknowledged, d.acknowledgedAt)
    ensures IsLast([], IsReadback, d.readbackAt)
  {
  }

  /** An update that settles the error text: it brings one, or its status clears it. */
  predicate SettlesError(u: Update) { u.error != "" || ClearsError(u.status) }

  /** `error` is what the last settling update left, or `otherwise` when there was none. */
  ghost predicate IsLastError(history: seq<Update>, otherwise: string, error: string) {
    || (error == otherwise && forall i :: 0 <= i < |history| ==> !SettlesError(history[i]))
    || exists i :: 0 <= i < |history| && SettlesError(history[i]) && error == history[i].error
                   && forall j :: i < j < |history| ==> !SettlesError(history[j])
  }

  /** The stored error is that of the last update which brought one or cleared it. */
  lemma {:induction false} ErrorIsLatest(d: Delivery, history: seq<Update>)
    ensures IsLastError(history, d.lastError, After(d, history).lastError)
  {
    if history != [] {
      var n := |history| - 1;
      ErrorIsLatest(d, history[..n]);
      if SettlesError(history[n]) {
        assert After(d, history).lastError == history[n].error;
      }
    }
  }

  lemma {:induction false} UpdatesAreNewest(d: Delivery, history: seq<Update>)
    requires d.updates == []
    ensures After(d, history).updates == Newest(history)
  {
    if history != [] {
      var front := history[..|history| - 1];
      UpdatesAreNewest(d, front);
      assert history == front + [history[|history| - 1]];
      NewestExtends(front, history[|history| - 1]);
    }
  }

  lemma NewestExtends(front: seq<Update>, u: Update)
    ensures Newest(Newest(front) + [u]) == Newest(front + [u])
  {
    if |front| > KEPT_UPDATES {
      assert Newest(front) + [u] == (front + [u])[|front| - KEPT_UPDATES..];
    }
  }

  lemma FirstExtends(front: seq<Update>, u: Update, p: Status -> bool, t: Option<int>)
    requires IsFirst(front, p, t)
    ensures IsFirst(front + [u], p, if t.None? && p(u.status) then Some(u.at) else t)
  {
    var whole := front + [u];
    if t.Some? {
      var i :| 0 <= i < |front| && p(front[i].status) && front[i].at == t.value
               && forall j :: 0 <= j < i ==> !p(front[j].status);
      assert whole[i] == front[i];
    } else if p(u.status) {
      assert whole[|front|] == u;
    }
  }

  lemma LastExtends(front: seq<Update>, u: Update, p: Status -> bool, t: Option<int>)
    requires IsLast(front, p, t)
    ensures IsLast(front + [u], p, if p(u.status) then Some(u.at) else t)
  {
    var whole := front + [u];
    if p(u.status) {
      assert whole[|front|] == u;
    } else if t.Some? {
      var i :| 0 <= i < |front| && p(front[i].status) && front[i].at == t.value
               && forall j :: i < j < |front| ==> !p(front[j].status);
      assert whole[i] == front[i];
    }
  }

  ghost predicate Monotone(history: seq<Update>) {
    forall i, j :: 0 <= i < j < |history| ==> history[i].at <= history[j].at
  }

  predicate TimesOrdered(d: Delivery) {
    && (d.readbackAt.Some? ==> d.acknowledgedAt.Some? && d.acknowledgedAt.value <= d.readbackAt.value)
    && (d.acknowledgedAt.Some? ==> d.sentAt.Some? && d.sentAt.value <= d.acknowledgedAt.value)
  }

  /** Under a monotone clock a readback implies an acknowledgement, an acknowledgement implies a
      send, and the three moments come in that order. */
  lemma TimestampsAreOrdered(d: Delivery, history: seq<Update>)
    requires Untouched(d) && Monotone(history)
    ensures TimesOrdered(After(d, history))
  {
    FieldsSummarizeHistory(d, history);
  }

  /** Sent and acknowledged are written once: later updates leave them alone. */
  lemma {:induction false} TimestampsAreWriteOnce(d: Delivery, history: seq<Update>, later: seq<Update>)
    ensures
      var r, s := After(d, history), After(d, history + later);
      && (r.sentAt.Some? ==> s.sentAt == r.sentAt)
      && (r.acknowledgedAt.Some? ==> s.acknowledgedAt == r.acknowledgedAt)
  {
    if later == [] {
      assert history + later == history;
    } else {
      var whole := history + later;
      assert whole[..|whole| - 1] == history + later[..|later| - 1];
      TimestampsAreWriteOnce(d, history, later[..|later| - 1]);
    }
  }
}
