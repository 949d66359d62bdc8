/** One agent turn: the bounded tool loop, and the event log it writes. */
module AgentRun {
  import opened Wrappers
  import opened AgentTrace

  /** What the provider comes back with: an answer, a tool call, anything else, or an error. */
  datatype Reply = Answer | Call(tool: string) | Unsupported | ProviderError

  /** What running a tool produces. */
  datatype ToolResult = Failure | Success(uiEvents: bool, proposals: nat, decisions: nat)

  datatype Outcome = Answered | AnsweredAfterMaximum | ProviderRaised | UnsupportedAction | NoFinalAnswer

  /** A stored event; `user_context` may precede the turn's own events. */
  datatype Row = Row(index: int, event: Option<Event>)

  predicate Contiguous(rows: seq<Row>) {
    forall i :: 0 <= i < |rows| ==> rows[i].index == i
  }

  function Repeat(e: Event, n: nat): seq<Event> {
    seq(n, i => e)
  }

  lemma RepeatNone(e: Event)
    ensures Repeat(e, 0) == []
  {
  }

  lemma RepeatOnce(e: Event, n: nat)
    ensures Repeat(e, n + 1) == Repeat(e, n) + [e]
  {
  }

  /** What running a validated tool records. */
  function ToolEvents(tool: string, result: ToolResult): seq<Event> {
    if result.Failure? then [ToolStarted(tool), ToolFailed(tool), Observed(tool)]
    else [ToolStarted(tool), ToolFinished(tool)] + SuccessEvents(tool, result)
  }

  function SuccessEvents(tool: string, result: ToolResult): seq<Event>
    requires result.Success?
  {
    (if result.uiEvents then [UiEvents] else [])
    + Repeat(ProposalCreated, result.proposals) + Repeat(DecisionRequested, result.decisions) + [Observed(tool)]
  }

  /** A success reports UI events when there are any, and each proposal and each decision once, before the
      observation that closes the call. */
  lemma SuccessReports(tool: string, result: ToolResult)
    requires result.Success?
    ensures
      var r := SuccessEvents(tool, result);
      && multiset(r)[UiEvents] == (if result.uiEvents then 1 else 0)
      && multiset(r)[ProposalCreated] == result.proposals && multiset(r)[DecisionRequested] == result.decisions
      && |r| == multiset(r)[UiEvents] + result.proposals + result.decisions + 1 && r[|r| - 1] == Observed(tool)
  {
    RepeatCount(ProposalCreated, result.proposals);
    RepeatCount(DecisionRequested, result.decisions);
  }

  lemma {:induction false} RepeatCount(e: Event, n: nat)
    ensures multiset(Repeat(e, n)) == multiset{}[e := n]
  {
    if n == 0 {
      RepeatNone(e);
    } else {
      RepeatOnce(e, n - 1);
      RepeatCount(e, n - 1);
    }
  }

  class Runtime {
    const setting: Setting
    var rows: seq<Row>
    var events: seq<Event>

    constructor (setting: Setting, rows: seq<Row>)
      ensures this.setting == setting && this.rows == rows && events == []
    {
      this.setting := setting;
      this.rows, events := rows, [];
    }

    /** The next index: one past the largest stored one. */
    method NextEventIndex() returns (index: int)
      ensures rows == [] ==> index == 0
      ensures forall i :: 0 <= i < |rows| ==> rows[i].index < index
      ensures rows != [] ==> exists i :: 0 <= i < |rows| && rows[i].index == index - 1
      ensures Contiguous(rows) ==> index == |rows|
    {
      if rows == [] {
        return 0;
      }
      var largest := rows[0].index;
      for i := 1 to |rows|
        invariant forall j :: 0 <= j < i ==> rows[j].index <= largest
        invariant exists j :: 0 <= j < i && rows[j].index == largest
      {
        if rows[i].index > largest {
          largest := rows[i].index;
        }
      }
      index := largest + 1;
      assert rows[|rows| - 1].index <= largest;
    }

    /** Stores an event under the next index and remembers it. */
    method Record(e: Event)
      modifies this
      ensures events == old(events) + [e]
      ensures |rows| == |old(rows)| + 1 && rows[..|old(rows)|] == old(rows) && rows[|old(rows)|].event == Some(e)
      ensures old(Contiguous(rows)) ==> Contiguous(rows)
    {
      var index := NextEventIndex();
      rows := rows + [Row(index, Some(e))];
      events := events + [e];
    }

    /** The events recorded so far follow the grammar and stand at `phase`; the rows that were
        there before are untouched and the new ones are the recorded events. */
    ghost predicate At(phase: Phase, before: seq<Row>)
      reads this
    {
      && phase != Wrong
      && After(setting, events) == phase
      && |rows| == |before| + |events| && rows[..|before|] == before
      && (forall i :: 0 <= i < |events| ==> rows[|before| + i].event == Some(events[i]))
      && (Contiguous(before) ==> Contiguous(rows))
    }

    method Emit(e: Event, ghost phase: Phase, ghost before: seq<Row>)
      requires At(phase, before) && Next(setting, phase, e) != Wrong
      modifies this
      ensures At(Next(setting, phase, e), before)
      ensures events == old(events) + [e]
    {
      hide Next, After;
      AfterExtends(setting, events, e);
      Record(e);
    }

    /** Asks the model once; a provider error ends the turn. */
    method RequestModelAction(iteration: int, last: bool, reply: Reply, ghost k: nat, ghost before: seq<Row>)
        returns (raised: bool)
      requires At(if last then Warned else Ready(k), before)
      requires iteration == k + 1 && (if last then k == setting.maxIterations else k < setting.maxIterations)
      modifies this
      ensures raised <==> reply.ProviderError?
      ensures At(if raised then Ended else Acted(k, last, if reply.Call? then Some(reply.tool) else None), before)
    {
      hide At;
      Emit(ModelRequest(iteration, last, !last && setting.offersTools), if last then Warned else Ready(k), before);
      if reply.ProviderError? {
        Emit(ProviderFailed, Asked(k, last), before);
        return true;
      }
      Emit(ProviderResponded, Asked(k, last), before);
      Emit(ModelAction(if reply.Call? then Some(reply.tool) else None), Responded(k, last), before);
      raised := false;
    }

    /** Runs a validated tool and records how it went. */
    method ExecuteToolCall(tool: string, result: ToolResult, ghost k: nat, ghost before: seq<Row>)
      requires At(Checked(k, tool, true), before)
      modifies this
      ensures At(Ready(k + 1), before)
      ensures events == old(events) + ToolEvents(tool, result)
    {
      hide At, Repeat, SuccessEvents;
      Emit(ToolStarted(tool), Checked(k, tool, true), before);
      if result.Failure? {
        Emit(ToolFailed(tool), Running(k, tool), before);
        Emit(Observed(tool), Reporting(k, tool), before);
        return;
      }
      Emit(ToolFinished(tool), Running(k, tool), before);
      ReportSuccess(tool, result, k, before);
    }

    /** What a successful tool came back with, and its observation. */
    method ReportSuccess(tool: string, result: ToolResult, ghost k: nat, ghost before: seq<Row>)
      requires At(Reporting(k, tool), before) && result.Success?
      modifies this
      ensures At(Ready(k + 1), before)
      ensures events == old(events) + SuccessEvents(tool, result)
    {
      hide At, Repeat;
      if result.uiEvents {
        Emit(UiEvents, Reporting(k, tool), before);
      }
      EmitEach(ProposalCreated, result.proposals, tool, k, before);
      EmitEach(DecisionRequested, result.decisions, tool, k, before);
      Emit(Observed(tool), Reporting(k, tool), before);
    }

    /** One event for each proposal or decision a tool came back with. */
    method EmitEach(e: Event, n: nat, ghost tool: string, ghost k: nat, ghost before: seq<Row>)
      requires At(Reporting(k, tool), before) && e in {ProposalCreated, DecisionRequested}
      modifies this
      ensures At(Reporting(k, tool), before)
      ensures events == old(events) + Repeat(e, n)
    {
      hide At, Repeat;
      RepeatNone(e);
      for i := 0 to n
        invariant At(Reporting(k, tool), before)
        invariant events == old(events) + Repeat(e, i)
      {
        RepeatOnce(e, i);
        Emit(e, Reporting(k, tool), before);
      }
    }

    method ValidateToolCall(tool: string) returns (valid: bool)
      ensures valid <==> ValidCall(setting, tool)
    {
      if tool !in setting.registry {
        return false;
      }
      var spec := setting.registry[tool];
      if setting.mode !in spec.contexts {
        return false;
      }
      valid := !spec.userDecisionRequired || tool == BINDING_PROPOSAL;
    }

    /** One round of the loop: ask, and unless that ends the turn, validate and run the tool. */
    method Iterate(k: nat, reply: Reply, result: ToolResult, ghost before: seq<Row>) returns (stop: Option<Outcome>)
      requires k < setting.maxIterations && At(Ready(k), before)
      modifies this
      ensures stop.None? <==> reply.Call?
      ensures stop.None? ==> At(Ready(k + 1), before)
      ensures stop.Some? ==>
                match reply
                case ProviderError => stop.value == ProviderRaised && At(Ended, before)
                case Answer => stop.value == Answered && At(Ended, before)
                case _ => stop.value == UnsupportedAction && At(Acted(k, false, None), before)
    {
      hide At;
      var raised := RequestModelAction(k + 1, false, reply, k, before);
      if raised {
        return Some(ProviderRaised);
      }
      if reply.Answer? {
        Emit(FinalAnswer(false), Acted(k, false, None), before);
        return Some(Answered);
      }
      if !reply.Call? {
        return Some(UnsupportedAction);
      }
      var valid := ValidateToolCall(reply.tool);
      Emit(Validated(reply.tool, valid), Acted(k, false, Some(reply.tool)), before);
      if valid {
        ExecuteToolCall(reply.tool, result, k, before);
      } else {
        Emit(Observed(reply.tool), Checked(k, reply.tool, false), before);
      }
      stop := None;
    }

    /** The extra request once the iterations are used up: no tools, and only an answer counts. */
    method ForceFinal(reply: Reply, ghost before: seq<Row>) returns (outcome: Outcome)
      requires At(Ready(setting.maxIterations), before)
      modifies this
      ensures match reply
              case ProviderError => outcome == ProviderRaised && At(Ended, before)
              case Answer => outcome == AnsweredAfterMaximum && At(Ended, before)
              case Call(tool) => outcome == NoFinalAnswer && At(Acted(setting.maxIterations, true, Some(tool)), before)
              case Unsupported => outcome == NoFinalAnswer && At(Acted(setting.maxIterations, true, None), before)
    {
      hide At;
      var k := setting.maxIterations;
      Emit(RuntimeWarning, Ready(k), before);
      var raised := RequestModelAction(k + 1, true, reply, k, before);
      if raised {
        return ProviderRaised;
      }
      if !reply.Answer? {
        return NoFinalAnswer;
      }
      Emit(FinalAnswer(true), Acted(k, true, None), before);
      outcome := AnsweredAfterMaximum;
    }

    /** The turn, for any replies and tool results: the trace follows the grammar however the turn
        ends, and it ends with an answer exactly when the model gave one in time. */
    method Run(replies: nat -> Reply, results: nat -> ToolResult) returns (outcome: Outcome)
      requires events == []
      modifies this
      ensures Grammatical(setting, events)
      ensures outcome == OutcomeOf(setting, replies, 0)
      ensures outcome in {Answered, AnsweredAfterMaximum, ProviderRaised} <==> After(setting, events) == Ended
      ensures |rows| == |old(rows)| + |events| && rows[..|old(rows)|] == old(rows)
      ensures forall i :: 0 <= i < |events| ==> rows[|old(rows)| + i].event == Some(events[i])
      ensures old(Contiguous(rows)) ==> Contiguous(rows)
    {
      hide Next, Contiguous;
      ghost var before := rows;
      Begin(before);
      for k := 0 to setting.maxIterations
        invariant At(Ready(k), before)
        invariant OutcomeOf(setting, replies, 0) == OutcomeOf(setting, replies, k)
      {
        var stop := Iterate(k, replies(k), results(k), before);
        if stop.Some? {
          return stop.value;
        }
      }
      outcome := ForceFinal(replies(setting.maxIterations), before);
    }

    method Begin(ghost before: seq<Row>)
      requires events == [] && before == rows
      modifies this
      ensures At(Ready(0), before)
    {
      Emit(RuntimeStarted, Fresh, before);
    }
  }

  /** How a turn ends that has used k tool iterations. */
  function OutcomeOf(s: Setting, replies: nat -> Reply, k: nat): Outcome
    requires k <= s.maxIterations
    decreases s.maxIterations - k
  {
    match replies(k)
    case ProviderError => ProviderRaised
    case Answer => if k < s.maxIterations then Answered else AnsweredAfterMaximum
    case Unsupported => if k < s.maxIterations then UnsupportedAction else NoFinalAnswer
    case Call(_) => if k < s.maxIterations then OutcomeOf(s, replies, k + 1) else NoFinalAnswer
  }

  /** How a turn ends is decided by the first reply that is not a tool call, if it comes within the
      iterations or in the extra round; a turn that never gets one ends without an answer. */
  lemma {:induction false} OutcomeIsFirstReply(s: Setting, replies: nat -> Reply, k: nat, n: nat)
    requires k <= n <= s.maxIterations && forall i: nat :: k <= i < n ==> replies(i).Call?
    ensures
      var r := OutcomeOf(s, replies, k);
      && (replies(n).ProviderError? ==> r == ProviderRaised)
      && (replies(n).Answer? ==> r == if n < s.maxIterations then Answered else AnsweredAfterMaximum)
      && (replies(n).Unsupported? ==> r == if n < s.maxIterations then UnsupportedAction else NoFinalAnswer)
      && (replies(n).Call? && n == s.maxIterations ==> r == NoFinalAnswer)
    decreases n - k
  {
    if k < n {
      OutcomeIsFirstReply(s, replies, k + 1, n);
    }
  }
}
