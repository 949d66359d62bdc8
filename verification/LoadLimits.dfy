/** The table of grid-operator limits: recording, lazy expiry and the effective grid limits. */
module LoadLimits {
  import opened Wrappers
  import opened Rounding
  import Text

  const LPC_USE_CASE := "limitationOfPowerConsumption"
  const LPP_USE_CASE := "limitationOfPowerProduction"

  // Instants are microseconds.
  const SECOND := 1_000_000

  datatype Key = Key(site: int, useCase: string, limitId: int, peerSki: string)

  datatype LimitRow = LimitRow(
    id: nat,
    key: Key,
    direction: string,
    source: string,
    limitWatts: int,
    durationSeconds: Option<int>,
    isActive: bool,
    receivedAt: int,
    expiresAt: Option<int>)

  datatype Command = Command(
    site: int,
    useCase: string,
    limitId: int,
    direction: string,
    source: string,
    peerSki: Option<string>,
    limitWatts: int,
    durationSeconds: Option<int>,
    isActive: bool)

  function KeyOf(command: Command): Key {
    var ski := match command.peerSki case None => "" case Some(s) => Text.Lower(Text.Strip(s));
    Key(command.site, command.useCase, command.limitId, ski)
  }

  /** A missing or zero duration means the limit never expires. */
  function ExpiryOf(command: Command, now: int): Option<int> {
    if command.isActive && command.durationSeconds.Some? && command.durationSeconds.value != 0
    then Some(now + command.durationSeconds.value * SECOND)
    else None
  }

  function RowOf(command: Command, id: nat, now: int): LimitRow {
    LimitRow(id, KeyOf(command), command.direction, command.source, command.limitWatts,
             command.durationSeconds, command.isActive, now, ExpiryOf(command, now))
  }

  /** Two commands are about the same limit exactly when site, use case and limit id agree and the peers
      do up to outer whitespace and capitals; no peer is the blank one. */
  lemma SameKeyIff(a: Command, b: Command)
    ensures KeyOf(a) == KeyOf(b) <==>
              a.site == b.site && a.useCase == b.useCase && a.limitId == b.limitId &&
              Text.Lower(Text.Strip(PeerOf(a))) == Text.Lower(Text.Strip(PeerOf(b)))
  {
    hide Text.Strip;
    assert Text.Strip("") == "" && Text.Lower("") == "";
  }

  function PeerOf(command: Command): string {
    if command.peerSki.Some? then command.peerSki.value else ""
  }

  predicate Expired(row: LimitRow, now: int) {
    row.expiresAt.Some? && row.expiresAt.value <= now
  }

  // ---- Replaying the command log ---------------------------------------------------

  datatype Op =
    | Recorded(at: int, row: LimitRow)
    | Swept(at: int, site: int)

  /** The limit in force for `key` after the whole log: the last command for the key, if it
      was an active one and no later sweep of its site found it expired. */
  ghost function Standing(log: seq<Op>, key: Key): Option<LimitRow> {
    if log == [] then None else
    var earlier := log[..|log| - 1];
    match log[|log| - 1]
    case Recorded(_, row) =>
      if row.key != key then Standing(earlier, key)
      else if row.isActive then Some(row) else None
    case Swept(at, site) =>
      var held := Standing(earlier, key);
      if site == key.site && held.Some? && Expired(held.value, at) then None else held
  }

  /** The last command for `key`, active or not. */
  ghost function LastCommand(log: seq<Op>, key: Key): Option<LimitRow> {
    if log == [] then None else
    var last := log[|log| - 1];
    if last.Recorded? && last.row.key == key then Some(last.row)
    else LastCommand(log[..|log| - 1], key)
  }

  ghost predicate Monotone(log: seq<Op>) {
    forall i, j :: 0 <= i < j < |log| ==> log[i].at <= log[j].at
  }

  /** The last command for `key` is at position `p`. */
  ghost predicate LastAt(log: seq<Op>, key: Key, p: int) {
    && 0 <= p < |log| && log[p].Recorded? && log[p].row.key == key
    && forall i :: p < i < |log| && log[i].Recorded? ==> log[i].row.key != key
  }

  predicate SweepsAway(op: Op, row: LimitRow) {
    op.Swept? && op.site == row.key.site && Expired(row, op.at)
  }

  /** A sweep of its site since the command at `p` found it expired. */
  ghost predicate SweptSince(log: seq<Op>, p: int)
    requires 0 <= p < |log| && log[p].Recorded?
  {
    exists i :: p < i < |log| && SweepsAway(log[i], log[p].row)
  }

  /** For any log, monotone or not: the limit in force is the last command exactly when that is an
      active one and no sweep of its site since has found it expired; otherwise there is none. */
  lemma {:induction false} StandingExactly(log: seq<Op>, key: Key, p: int)
    requires LastAt(log, key, p)
    ensures LastCommand(log, key) == Some(log[p].row)
    ensures Standing(log, key) == if log[p].row.isActive && !SweptSince(log, p) then Some(log[p].row) else None
  {
    hide Expired;
    var n := |log| - 1;
    var front := log[..n];
    if p < n {
      StandingExactly(front, key, p);
      SweptSinceExtends(log, p);
    }
  }

  lemma SweptSinceExtends(log: seq<Op>, p: int)
    requires 0 <= p < |log| - 1 && log[p].Recorded?
    ensures SweptSince(log, p) <==> SweptSince(log[..|log| - 1], p) || SweepsAway(log[|log| - 1], log[p].row)
  {
    hide SweepsAway;
    var front := log[..|log| - 1];
    if i :| p < i < |front| && SweepsAway(front[i], front[p].row) {
      assert SweepsAway(log[i], log[p].row);
    }
    if i :| p < i < |log| && SweepsAway(log[i], log[p].row) && i < |front| {
      assert SweepsAway(front[i], front[p].row);
    }
  }

  lemma {:induction false} NeverCommanded(log: seq<Op>, key: Key)
    ensures LastCommand(log, key).Some? <==> exists p :: LastAt(log, key, p)
    ensures LastCommand(log, key).None? ==> Standing(log, key).None?
  {
    if log != [] {
      var n := |log| - 1;
      NeverCommanded(log[..n], key);
      if LastCommand(log, key).Some? {
        if log[n].Recorded? && log[n].row.key == key {
          assert LastAt(log, key, n);
        } else {
          var p :| LastAt(log[..n], key, p);
          assert LastAt(log, key, p);
        }
      }
      if p :| LastAt(log, key, p) && p < n {
        assert LastAt(log[..n], key, p);
      }
    }
  }

  /** Under a monotone clock: what is in force is the last command and active, and the last command is in
      force as long as it is active and unexpired. */
  lemma StandingMatchesLastCommand(log: seq<Op>, key: Key, now: int)
    requires Monotone(log)
    requires forall i :: 0 <= i < |log| ==> log[i].at <= now
    ensures
      var last, held := LastCommand(log, key), Standing(log, key);
      && (held.Some? ==> last == held && held.value.isActive)
      && (last.Some? && last.value.isActive && !Expired(last.value, now) ==> held == last)
  {
    hide Standing, LastCommand;
    NeverCommanded(log, key);
    if p :| LastAt(log, key, p) {
      StandingExactly(log, key, p);
    }
  }

  /** What replay reports: the last command, if it is active and unexpired at `now`. */
  ghost function Replayed(log: seq<Op>, key: Key, now: int): Option<LimitRow> {
    var last := LastCommand(log, key);
    if last.Some? && last.value.isActive && !Expired(last.value, now) then last else None
  }

  /** Right after a sweep, lazy expiry differs from replay exactly when the last command is active and
      unexpired now, but an earlier sweep, at a later time, has found it expired. */
  lemma SweepMissesReplayIff(log: seq<Op>, key: Key, now: int)
    ensures Standing(log + [Swept(now, key.site)], key) != Replayed(log, key, now) <==>
            exists p :: LastAt(log, key, p) && log[p].row.isActive && !Expired(log[p].row, now) && SweptSince(log, p)
  {
    hide Standing, LastCommand;
    var whole := log + [Swept(now, key.site)];
    SweepLast(log, key, now);
    NeverCommanded(log, key);
    if p :| LastAt(log, key, p) {
      StandingExactly(log, key, p);
      forall q | LastAt(log, key, q) ensures q == p {
      }
    }
  }

  lemma SweepLast(log: seq<Op>, key: Key, now: int)
    ensures Standing(log + [Swept(now, key.site)], key) ==
            if Standing(log, key).Some? && Expired(Standing(log, key).value, now) then None else Standing(log, key)
  {
    var whole := log + [Swept(now, key.site)];
    assert whole[..|whole| - 1] == log;
  }

  /** Under a monotone clock lazy expiry refines replay: right after a sweep at `now`, the limit in force
      for each key of that site is exactly the last recorded command, if active and unexpired. */
  lemma SweepRefinesReplay(log: seq<Op>, key: Key, now: int)
    requires Monotone(log + [Swept(now, key.site)])
    ensures Standing(log + [Swept(now, key.site)], key) == Replayed(log, key, now)
  {
    hide Standing, Replayed, LastCommand;
    SweepMissesReplayIff(log, key, now);
    var whole := log + [Swept(now, key.site)];
    forall i | 0 <= i < |log| ensures log[i].at <= now {
      assert whole[i].at <= whole[|log|].at;
    }
  }

  /** It takes a clock that runs backwards: after a sweep at 20 seconds, a sweep at 5 seconds does not
      bring back a command for 10 seconds. */
  lemma BackwardClockLosesALimit(command: Command, id: nat)
    requires command.isActive && command.durationSeconds == Some(10)
    ensures
      var row := RowOf(command, id, 0);
      var log := [Recorded(0, row), Swept(20 * SECOND, row.key.site)];
      Standing(log + [Swept(5 * SECOND, row.key.site)], row.key) != Replayed(log, row.key, 5 * SECOND)
  {
    hide KeyOf;
    var row := RowOf(command, id, 0);
    var log := [Recorded(0, row), Swept(20 * SECOND, row.key.site)];
    assert SweepsAway(log[1], log[0].row);
    assert LastAt(log, row.key, 0);
    SweepMissesReplayIff(log, row.key, 5 * SECOND);
  }

  /** An active command stands through everything that does not command its key, however often the
      site is swept, exactly when it came without a duration or with duration zero. */
  lemma NeverExpiresIff(log: seq<Op>, command: Command, id: nat, now: int)
    requires command.isActive
    ensures
      var row := RowOf(command, id, now);
      (forall later :: Spares(later, row.key) ==>
       Standing(log + [Recorded(now, row)] + later, row.key) == Some(row)) <==>
      command.durationSeconds.None? || command.durationSeconds.value == 0
  {
    hide Standing, KeyOf;
    var row := RowOf(command, id, now);
    var recorded := log + [Recorded(now, row)];
    if row.expiresAt.None? {
      forall later | Spares(later, row.key) ensures Standing(recorded + later, row.key) == Some(row) {
        UnexpiringLimitStands(log, now, row, later);
      }
    } else {
      ExpiringLimitFalls(log, now, row);
      assert Spares([Swept(row.expiresAt.value, row.key.site)], row.key);
    }
  }

  /** A sweep at its expiry takes a limit away. */
  lemma ExpiringLimitFalls(log: seq<Op>, at: int, row: LimitRow)
    requires row.expiresAt.Some?
    ensures Standing(log + [Recorded(at, row)] + [Swept(row.expiresAt.value, row.key.site)], row.key) == None
  {
    hide Standing, LastCommand;
    var sweep := Swept(row.expiresAt.value, row.key.site);
    var whole := log + [Recorded(at, row)] + [sweep];
    assert whole[|log|] == Recorded(at, row);
    assert whole[|log| + 1] == sweep && SweepsAway(sweep, row);
    StandingExactly(whole, row.key, |log|);
  }

  /** An active command for s seconds stands in a sweep exactly as long as fewer than s seconds have
      passed since it was recorded. */
  lemma StandsExactlySeconds(log: seq<Op>, command: Command, id: nat, now: int, t: int)
    requires command.isActive && command.durationSeconds.Some? && command.durationSeconds.value != 0
    ensures
      var row := RowOf(command, id, now);
      Standing(log + [Recorded(now, row)] + [Swept(t, row.key.site)], row.key) == Some(row) <==>
      t < now + command.durationSeconds.value * SECOND
  {
    hide Standing, KeyOf, LastCommand;
    var row := RowOf(command, id, now);
    var sweep := Swept(t, row.key.site);
    var whole := log + [Recorded(now, row)] + [sweep];
    assert whole[|log|] == Recorded(now, row) && whole[|log| + 1] == sweep;
    StandingExactly(whole, row.key, |log|);
    assert SweptSince(whole, |log|) <==> SweepsAway(sweep, row) by {
      if SweepsAway(sweep, row) { assert SweepsAway(whole[|log| + 1], whole[|log|].row); }
    }
  }

  ghost predicate Spares(later: seq<Op>, key: Key) {
    forall i :: 0 <= i < |later| && later[i].Recorded? ==> later[i].row.key != key
  }

  lemma UnexpiringLimitStands(log: seq<Op>, at: int, row: LimitRow, later: seq<Op>)
    requires row.isActive && row.expiresAt.None? && Spares(later, row.key)
    ensures Standing(log + [Recorded(at, row)] + later, row.key) == Some(row)
  {
    hide Standing, LastCommand;
    var whole := log + [Recorded(at, row)] + later;
    assert whole[|log|] == Recorded(at, row);
    forall i | |log| < i < |whole| ensures whole[i] == later[i - |log| - 1] {
    }
    StandingExactly(whole, row.key, |log|);
  }

  // ---- The table -------------------------------------------------------------------

  function LimitKw(row: LimitRow): real {
    RoundTo(row.limitWatts as real / 1000.0, 10000)
  }

  /** Whole watts keep every digit when rounded to a tenth of a watt. */
  lemma LimitKwIsExact(row: LimitRow)
    ensures LimitKw(row) == row.limitWatts as real / 1000.0
  {
    RoundToOnGrid(row.limitWatts as real / 1000.0, 10 * row.limitWatts, 10000);
  }

  /** `v` is the least of `base` and every limit in force for the use case on the site. */
  ghost predicate IsTightest(v: real, base: real, log: seq<Op>, site: int, useCase: string) {
    && v <= base
    && (forall key: Key | key.site == site && key.useCase == useCase && Standing(log, key).Some? ::
          v <= Standing(log, key).value.limitWatts as real / 1000.0)
    && (v == base ||
        exists key: Key :: key.site == site && key.useCase == useCase && Standing(log, key).Some?
                      && v == Standing(log, key).value.limitWatts as real / 1000.0)
  }

  predicate NewestFirst(rows: seq<LimitRow>) {
    forall i, j :: 0 <= i < j < |rows| ==> rows[i].receivedAt >= rows[j].receivedAt
  }

  predicate DistinctKeys(rows: seq<LimitRow>) {
    forall i, j :: 0 <= i < j < |rows| ==> rows[i].key != rows[j].key
  }

  function Keys(rows: seq<LimitRow>): set<Key> {
    if rows == [] then {} else Keys(rows[..|rows| - 1]) + {rows[|rows| - 1].key}
  }

  /** The rows an expiry pass keeps: unexpired, and the first of their key. */
  function Survivors(listing: seq<LimitRow>, now: int): seq<LimitRow> {
    if listing == [] then [] else
    var row := listing[|listing| - 1];
    var earlier := Survivors(listing[..|listing| - 1], now);
    if Expired(row, now) || row.key in Keys(earlier) then earlier else earlier + [row]
  }

  /** Some kept row has the same key and was received no earlier. */
  ghost predicate Covered(row: LimitRow, active: seq<LimitRow>) {
    exists kept :: kept in active && kept.key == row.key && kept.receivedAt >= row.receivedAt
  }

  lemma {:induction false} KeysAreMembers(rows: seq<LimitRow>)
    ensures forall key :: key in Keys(rows) <==> exists i :: 0 <= i < |rows| && rows[i].key == key
  {
    if rows != [] {
      var front, n := rows[..|rows| - 1], |rows| - 1;
      KeysAreMembers(front);
      forall key ensures key in Keys(rows) <==> exists i :: 0 <= i < |rows| && rows[i].key == key {
        if key in Keys(front) {
          var i :| 0 <= i < |front| && front[i].key == key;
          assert rows[i].key == key;
        }
        if i :| 0 <= i < |rows| && rows[i].key == key && i < n {
          assert front[i].key == key;
        }
      }
    }
  }

  lemma {:induction false} SurvivorsAreListed(listing: seq<LimitRow>, now: int)
    ensures forall row :: row in Survivors(listing, now) ==> row in listing && !Expired(row, now)
  {
    if listing != [] {
      SurvivorsAreListed(listing[..|listing| - 1], now);
    }
  }

  lemma {:induction false} SurvivorsKeepOrder(listing: seq<LimitRow>, now: int)
    requires NewestFirst(listing)
    ensures NewestFirst(Survivors(listing, now)) && DistinctKeys(Survivors(listing, now))
  {
    if listing != [] {
      var front, row := listing[..|listing| - 1], listing[|listing| - 1];
      var earlier := Survivors(front, now);
      SurvivorsKeepOrder(front, now);
      SurvivorsAreListed(front, now);
      KeysAreMembers(earlier);
      forall i | 0 <= i < |earlier| ensures earlier[i].receivedAt >= row.receivedAt {
        assert earlier[i] in front;
      }
    }
  }

  lemma {:induction false} SurvivorsCoverListed(listing: seq<LimitRow>, now: int)
    requires NewestFirst(listing)
    ensures forall row :: row in listing && !Expired(row, now) ==> Covered(row, Survivors(listing, now))
  {
    if listing != [] {
      var front, last := listing[..|listing| - 1], listing[|listing| - 1];
      var earlier, active := Survivors(front, now), Survivors(listing, now);
      SurvivorsCoverListed(front, now);
      SurvivorsAreListed(front, now);
      KeysAreMembers(earlier);
      assert forall kept :: kept in earlier ==> kept in active;
      forall row | row in listing && !Expired(row, now) ensures Covered(row, active) {
        if row in front {
          var kept :| kept in earlier && kept.key == row.key && kept.receivedAt >= row.receivedAt;
          assert kept in active;
        } else if last.key in Keys(earlier) {
          var i :| 0 <= i < |earlier| && earlier[i].key == last.key;
          assert earlier[i] in active && earlier[i] in front;
        } else {
          assert last in active;
        }
      }
    }
  }

  lemma InsertKeepsOrder(listing: seq<LimitRow>, at: nat, row: LimitRow)
    requires NewestFirst(listing) && at <= |listing|
    requires forall i, j :: 0 <= i < j < |listing| ==> listing[i].id != listing[j].id
    requires forall r :: r in listing ==> r.id != row.id
    requires forall j :: 0 <= j < at ==> listing[j].receivedAt >= row.receivedAt
    requires at < |listing| ==> listing[at].receivedAt <= row.receivedAt
    ensures
      var longer := listing[..at] + [row] + listing[at..];
      && NewestFirst(longer)
      && (forall r :: r in longer <==> r in listing || r == row)
      && (forall i, j :: 0 <= i < j < |longer| ==> longer[i].id != longer[j].id)
  {
    var longer := listing[..at] + [row] + listing[at..];
    forall j | at <= j < |listing| ensures listing[j].receivedAt <= row.receivedAt {
      assert listing[at].receivedAt >= listing[j].receivedAt;
    }
    forall i, j | 0 <= i < j < |longer|
      ensures longer[i].id != longer[j].id && longer[i].receivedAt >= longer[j].receivedAt
    {
      if i == at {
        assert longer[j] == listing[j - 1];
      } else if j == at {
        assert longer[i] == listing[i];
      } else {
        var i', j' := if i < at then i else i - 1, if j < at then j else j - 1;
        assert longer[i] == listing[i'] && longer[j] == listing[j'];
      }
    }
    InsertedMembers(listing, at, row);
  }

  lemma InsertedMembers(listing: seq<LimitRow>, at: nat, row: LimitRow)
    requires at <= |listing|
    ensures forall r :: r in listing[..at] + [row] + listing[at..] <==> r in listing || r == row
  {
    assert listing == listing[..at] + listing[at..];
  }

  class LimitTable {
    var rows: seq<LimitRow>
    ghost var log: seq<Op>

    ghost predicate Numbered()
      reads this
    {
      forall i :: 0 <= i < |rows| ==> rows[i].id == i
    }

    /** The active rows are exactly the limits in force according to the log. */
    ghost predicate Valid()
      reads this
    {
      && Numbered()
      && (forall i :: 0 <= i < |rows| && rows[i].isActive ==> Standing(log, rows[i].key) == Some(rows[i]))
      && (forall key :: Standing(log, key).Some? ==>
            var row := Standing(log, key).value;
            row.key == key && row.isActive && row.id < |rows| && rows[row.id] == row)
    }

    /** At most one row per key is ever active. */
    lemma ActiveRowsAreUnique(i: nat, j: nat)
      requires Valid()
      requires i < |rows| && j < |rows| && rows[i].isActive && rows[j].isActive
      requires rows[i].key == rows[j].key
      ensures i == j
    {
      assert rows[i] == rows[j];
    }

    constructor ()
      ensures Valid() && rows == [] && log == []
    {
      rows, log := [], [];
    }

    /** Recording supersedes every active row of the same key and appends the new one. */
    method Record(command: Command, now: int) returns (row: LimitRow)
      requires Valid()
      modifies this
      ensures Valid()
      ensures row == RowOf(command, |old(rows)|, now)
      ensures row.limitWatts == command.limitWatts && row.isActive == command.isActive && row.receivedAt == now
      ensures row.key.site == command.site && row.key.useCase == command.useCase && row.key.limitId == command.limitId
      ensures command.isActive && command.durationSeconds.Some? && command.durationSeconds.value != 0 ==>
                forall t :: Expired(row, t) <==> now + command.durationSeconds.value * SECOND <= t
      ensures log == old(log) + [Recorded(now, row)]
      ensures |rows| == |old(rows)| + 1 && rows[|old(rows)|] == row
      ensures forall i :: 0 <= i < |old(rows)| ==>
                rows[i] == if old(rows)[i].key == row.key then old(rows)[i].(isActive := false) else old(rows)[i]
    {
      var key := KeyOf(command);
      for i := 0 to |rows|
        invariant |rows| == |old(rows)|
        invariant forall j :: 0 <= j < i ==>
                    rows[j] == if old(rows)[j].key == key then old(rows)[j].(isActive := false) else old(rows)[j]
        invariant forall j :: i <= j < |rows| ==> rows[j] == old(rows)[j]
        invariant log == old(log)
      {
        if rows[i].key == key && rows[i].isActive {
          rows := rows[i := rows[i].(isActive := false)];
        }
      }
      row := RowOf(command, |rows|, now);
      rows := rows + [row];
      log := log + [Recorded(now, row)];
      assert log[..|log| - 1] == old(log);
    }

    /** The site's active rows, newest first; rows received at the same instant come in any order. */
    method NewestActive(site: int) returns (listing: seq<LimitRow>)
      requires Numbered()
      ensures NewestFirst(listing)
      ensures forall row :: row in listing <==> row in rows && row.isActive && row.key.site == site
      ensures forall i, j :: 0 <= i < j < |listing| ==> listing[i].id != listing[j].id
    {
      listing := [];
      for i := 0 to |rows|
        invariant NewestFirst(listing)
        invariant forall row :: row in listing <==> row in rows[..i] && row.isActive && row.key.site == site
        invariant forall row :: row in listing ==> row.id < i
        invariant forall j, k :: 0 <= j < k < |listing| ==> listing[j].id != listing[k].id
      {
        assert rows[..i + 1] == rows[..i] + [rows[i]];
        if rows[i].isActive && rows[i].key.site == site {
          listing := InsertByAge(listing, rows[i]);
        }
      }
      assert rows[..|rows|] == rows;
    }

    static method InsertByAge(listing: seq<LimitRow>, row: LimitRow) returns (longer: seq<LimitRow>)
      requires NewestFirst(listing)
      requires forall i, j :: 0 <= i < j < |listing| ==> listing[i].id != listing[j].id
      requires forall r :: r in listing ==> r.id != row.id
      ensures NewestFirst(longer)
      ensures forall r :: r in longer <==> r in listing || r == row
      ensures forall i, j :: 0 <= i < j < |longer| ==> longer[i].id != longer[j].id
    {
      var at := 0;
      while at < |listing| && listing[at].receivedAt >= row.receivedAt
        invariant 0 <= at <= |listing|
        invariant forall j :: 0 <= j < at ==> listing[j].receivedAt >= row.receivedAt
      {
        at := at + 1;
      }
      longer := listing[..at] + [row] + listing[at..];
      InsertKeepsOrder(listing, at, row);
    }

    /** The loop of the expiry pass, correct for any table: every listed row that does not survive
        is deactivated. */
    method ExpireListed(listing: seq<LimitRow>, now: int) returns (active: seq<LimitRow>)
      requires forall n :: 0 <= n < |listing| ==>
                 listing[n].id < |rows| && rows[listing[n].id] == listing[n] && listing[n].isActive
      requires forall m, n :: 0 <= m < n < |listing| ==> listing[m].id != listing[n].id
      requires Numbered()
      modifies this`rows
      ensures active == Survivors(listing, now)
      ensures |rows| == |old(rows)|
      ensures forall i :: 0 <= i < |rows| ==>
                rows[i] == if old(rows)[i] in listing && old(rows)[i] !in active
                           then old(rows)[i].(isActive := false) else old(rows)[i]
    {
      var seenKeys: set<Key> := {};
      active := [];
      ghost var dropped: set<int> := {};
      for n := 0 to |listing|
        invariant active == Survivors(listing[..n], now)
        invariant seenKeys == Keys(active)
        invariant |rows| == |old(rows)|
        invariant forall i :: 0 <= i < |rows| ==>
                    rows[i] == if i in dropped then old(rows)[i].(isActive := false) else old(rows)[i]
        invariant forall i :: i in dropped ==> exists m :: 0 <= m < n && listing[m].id == i
        invariant forall m :: 0 <= m < n ==> (listing[m].id in dropped <==> listing[m] !in active)
      {
        var row := listing[n];
        assert listing[..n + 1][..n] == listing[..n];
        SurvivorsAreListed(listing[..n], now);
        if Expired(row, now) || row.key in seenKeys {
          rows := rows[row.id := row.(isActive := false)];
          dropped := dropped + {row.id};
        } else {
          assert row.id !in dropped;
          seenKeys := seenKeys + {row.key};
          active := active + [row];
        }
      }
      assert listing[..|listing|] == listing;
      SurvivorsAreListed(listing, now);
    }

    /** The lazy expiry pass. On any table it leaves active, per key of the site, only a newest
        unexpired row; on a table built by records and sweeps it returns exactly the limits in
        force. */
    method ActiveLimits(site: int, now: int) returns (active: seq<LimitRow>)
      requires Numbered()
      modifies this
      ensures old(Valid()) ==> Valid()
      ensures log == old(log) + [Swept(now, site)]
      ensures NewestFirst(active) && DistinctKeys(active)
      ensures forall row :: row in active ==>
              row in old(rows) && row.isActive && row.key.site == site && !Expired(row, now)
      ensures forall row :: row in old(rows) && row.isActive && row.key.site == site && !Expired(row, now) ==>
                Covered(row, active)
      ensures |rows| == |old(rows)|
      ensures forall i :: 0 <= i < |rows| ==>
                rows[i] == if old(rows)[i].isActive && old(rows)[i].key.site == site && old(rows)[i] !in active
                           then old(rows)[i].(isActive := false) else old(rows)[i]
      ensures old(Valid()) ==>
                forall row: LimitRow :: row in active <==> row.key.site == site && Standing(log, row.key) == Some(row)
    {
      var listing := NewestActive(site);
      active := ExpireListed(listing, now);
      SurvivorsAreListed(listing, now);
      SurvivorsKeepOrder(listing, now);
      SurvivorsCoverListed(listing, now);
      log := log + [Swept(now, site)];
      assert log[..|log| - 1] == old(log);
      if old(Valid()) {
        SweepKeepsStanding(old(rows), old(log), site, now, active);
      }
    }

    /** The base policy limits tightened by the limits in force. */
    method EffectiveGridLimits(site: int, importLimitKw: real, exportLimitKw: real, now: int)
      returns (importKw: real, exportKw: real)
      requires Valid()
      modifies this
      ensures Valid()
      ensures log == old(log) + [Swept(now, site)]
      ensures IsTightest(importKw, importLimitKw, log, site, LPC_USE_CASE)
      ensures IsTightest(exportKw, exportLimitKw, log, site, LPP_USE_CASE)
    {
      importKw, exportKw := importLimitKw, exportLimitKw;
      var active := ActiveLimits(site, now);
      for n := 0 to |active|
        invariant importKw <= importLimitKw && exportKw <= exportLimitKw
        invariant forall row :: row in active[..n] && row.key.useCase == LPC_USE_CASE ==> importKw <= LimitKw(row)
        invariant forall row :: row in active[..n] && row.key.useCase == LPP_USE_CASE ==> exportKw <= LimitKw(row)
        invariant importKw == importLimitKw ||
                  exists row: LimitRow :: row in active && row.key.useCase == LPC_USE_CASE && importKw == LimitKw(row)
        invariant exportKw == exportLimitKw ||
                  exists row: LimitRow :: row in active && row.key.useCase == LPP_USE_CASE && exportKw == LimitKw(row)
      {
        var limit := active[n];
        var limitKw := LimitKw(limit);
        assert active[..n + 1] == active[..n] + [limit];
        assert limit in active;
        if limit.key.useCase == LPC_USE_CASE {
          importKw := if limitKw < importKw then limitKw else importKw;
        } else if limit.key.useCase == LPP_USE_CASE {
          exportKw := if limitKw < exportKw then limitKw else exportKw;
        }
      }
      assert active[..|active|] == active;
      TightestFromActive(importKw, importLimitKw, log, site, LPC_USE_CASE, active);
      TightestFromActive(exportKw, exportLimitKw, log, site, LPP_USE_CASE, active);
    }
  }

  /** From a command to the grid limits: until its seconds have passed, the recorded limit binds the side
      of the grid its use case is about, in kilowatts. */
  method RecordedLimitBinds(table: LimitTable, command: Command, now: int, t: int, importLimitKw: real,
                            exportLimitKw: real)
    returns (importKw: real, exportKw: real)
    requires table.Valid() && command.isActive
    requires command.durationSeconds.Some? && command.durationSeconds.value != 0
    requires t < now + command.durationSeconds.value * SECOND
    modifies table
    ensures command.useCase == LPC_USE_CASE ==> importKw <= command.limitWatts as real / 1000.0
    ensures command.useCase == LPP_USE_CASE ==> exportKw <= command.limitWatts as real / 1000.0
    ensures importKw <= importLimitKw && exportKw <= exportLimitKw
  {
    hide Standing, KeyOf, LimitKw;
    ghost var log := table.log;
    var row := table.Record(command, now);
    importKw, exportKw := table.EffectiveGridLimits(command.site, importLimitKw, exportLimitKw, t);
    StandsExactlySeconds(log, command, row.id, now, t);
    LimitKwIsExact(row);
  }

  lemma TightestFromActive(v: real, base: real, log: seq<Op>, site: int, useCase: string, active: seq<LimitRow>)
    requires forall row: LimitRow :: row in active <==> row.key.site == site && Standing(log, row.key) == Some(row)
    requires forall key :: Standing(log, key).Some? ==> Standing(log, key).value.key == key
    requires v <= base
    requires forall row :: row in active && row.key.useCase == useCase ==> v <= LimitKw(row)
    requires v == base || exists row: LimitRow :: row in active && row.key.useCase == useCase && v == LimitKw(row)
    ensures IsTightest(v, base, log, site, useCase)
  {
    forall key: Key | key.site == site && key.useCase == useCase && Standing(log, key).Some?
      ensures v <= Standing(log, key).value.limitWatts as real / 1000.0
    {
      var row := Standing(log, key).value;
      assert row in active;
      LimitKwIsExact(row);
    }
    if v != base {
      var row :| row in active && row.key.useCase == useCase && v == LimitKw(row);
      LimitKwIsExact(row);
      assert Standing(log, row.key) == Some(row);
    }
  }

  /** What a sweep of a valid table returns is what the extended log says is in force. */
  lemma SweepKeepsStanding(rows: seq<LimitRow>, log: seq<Op>, site: int, now: int, active: seq<LimitRow>)
    requires forall i :: 0 <= i < |rows| ==> rows[i].id == i
    requires forall i :: 0 <= i < |rows| && rows[i].isActive ==> Standing(log, rows[i].key) == Some(rows[i])
    requires forall key :: Standing(log, key).Some? ==>
               var row := Standing(log, key).value;
               row.key == key && row.isActive && row.id < |rows| && rows[row.id] == row
    requires forall row :: row in active ==> row in rows && row.isActive && row.key.site == site && !Expired(row, now)
    requires forall row :: row in rows && row.isActive && row.key.site == site && !Expired(row, now) ==>
               Covered(row, active)
    ensures forall row: LimitRow :: row in active <==>
            row.key.site == site && Standing(log + [Swept(now, site)], row.key) == Some(row)
    ensures forall row :: row in rows && row.isActive && row.key.site == site && row !in active ==> Expired(row, now)
  {
    var swept := log + [Swept(now, site)];
    assert swept[..|swept| - 1] == log;
    forall row | row in rows && row.isActive && row.key.site == site && !Expired(row, now) ensures row in active {
      var kept :| kept in active && kept.key == row.key;
      assert Standing(log, row.key) == Some(row) == Some(kept);
    }
    forall row: LimitRow | row.key.site == site && Standing(swept, row.key) == Some(row) ensures row in active {
      assert Standing(log, row.key) == Some(row);
      assert rows[row.id] == row;
    }
  }
}
