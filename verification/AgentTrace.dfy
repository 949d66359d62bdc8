/** The grammar of the events an agent turn leaves behind. */
module AgentTrace {
  import opened Wrappers

  datatype ToolSpec = ToolSpec(contexts: set<string>, userDecisionRequired: bool)

  datatype Event =
    | RuntimeStarted
    | ModelRequest(iteration: int, forceFinal: bool, offersTools: bool)
    | ProviderFailed
    | ProviderResponded
    | ModelAction(call: Option<string>)
    | FinalAnswer(afterMaximum: bool)
    | Validated(tool: string, valid: bool)
    | Observed(tool: string)
    | ToolStarted(tool: string)
    | ToolFailed(tool: string)
    | ToolFinished(tool: string)
    | UiEvents
    | ProposalCreated
    | DecisionRequested
    | RuntimeWarning

  datatype Setting = Setting(registry: map<string, ToolSpec>, mode: string, offersTools: bool, maxIterations: nat)

  const BINDING_PROPOSAL := "role.prepare_binding_proposal"

  /** The tool exists, is available in the mode, and may be applied by the model. */
  predicate ValidCall(s: Setting, tool: string) {
    && tool in s.registry
    && s.mode in s.registry[tool].contexts
    && (s.registry[tool].userDecisionRequired ==> tool == BINDING_PROPOSAL)
  }

  /** Where a turn stands; `k` counts the finished tool iterations. */
  datatype Phase =
    | Fresh
    | Ready(k: nat)
    | Warned
    | Asked(k: nat, last: bool)
    | Responded(k: nat, last: bool)
    | Acted(k: nat, last: bool, call: Option<string>)
    | Checked(k: nat, tool: string, valid: bool)
    | Running(k: nat, tool: string)
    | Reporting(k: nat, tool: string)
    | Ended
    | Wrong

  function Next(s: Setting, phase: Phase, e: Event): Phase {
    match (phase, e)
    case (Fresh, RuntimeStarted) => Ready(0)
    case (Ready(k), ModelRequest(iteration, false, offers)) =>
      if k < s.maxIterations && iteration == k + 1 && offers == s.offersTools then Asked(k, false) else Wrong
    case (Ready(k), RuntimeWarning) => if k == s.maxIterations then Warned else Wrong
    case (Warned, ModelRequest(iteration, true, false)) =>
      if iteration == s.maxIterations + 1 then Asked(s.maxIterations, true) else Wrong
    case (Asked(_, _), ProviderFailed) => Ended
    case (Asked(k, last), ProviderResponded) => Responded(k, last)
    case (Responded(k, last), ModelAction(call)) => Acted(k, last, call)
    case (Acted(k, last, None), FinalAnswer(afterMaximum)) => if afterMaximum == last then Ended else Wrong
    case (Acted(k, false, Some(tool)), Validated(t, valid)) =>
      if t == tool && valid == ValidCall(s, tool) then Checked(k, tool, valid) else Wrong
    case (Checked(k, tool, false), Observed(t)) => if t == tool then Ready(k + 1) else Wrong
    case (Checked(k, tool, true), ToolStarted(t)) => if t == tool then Running(k, tool) else Wrong
    case (Running(k, tool), ToolFailed(t)) => if t == tool then Reporting(k, tool) else Wrong
    case (Running(k, tool), ToolFinished(t)) => if t == tool then Reporting(k, tool) else Wrong
    case (Reporting(k, tool), UiEvents) => phase
    case (Reporting(k, tool), ProposalCreated) => phase
    case (Reporting(k, tool), DecisionRequested) => phase
    case (Reporting(k, tool), Observed(t)) => if t == tool then Ready(k + 1) else Wrong
    case _ => Wrong
  }

  function After(s: Setting, trace: seq<Event>): Phase {
    if trace == [] then Fresh else Next(s, After(s, trace[..|trace| - 1]), trace[|trace| - 1])
  }

  lemma AfterExtends(s: Setting, trace: seq<Event>, e: Event)
    ensures After(s, trace + [e]) == Next(s, After(s, trace), e)
  {
    assert (trace + [e])[..|trace|] == trace;
  }

  /** The trace follows the grammar so far. */
  predicate Grammatical(s: Setting, trace: seq<Event>) {
    After(s, trace) != Wrong
  }

  lemma {:induction false} PrefixesAreGrammatical(s: Setting, trace: seq<Event>, n: nat)
    requires Grammatical(s, trace) && n <= |trace|
    ensures Grammatical(s, trace[..n])
  {
    if n < |trace| {
      PrefixesAreGrammatical(s, trace[..|trace| - 1], n);
      assert trace[..|trace| - 1][..n] == trace[..n];
    } else {
      assert trace[..n] == trace;
    }
  }

  // ---- What the grammar guarantees ---------------------------------------------------

  function Requests(trace: seq<Event>): nat {
    if trace == [] then 0
    else Requests(trace[..|trace| - 1]) + if trace[|trace| - 1].ModelRequest? then 1 else 0
  }

  function Starts(trace: seq<Event>): nat {
    if trace == [] then 0
    else Starts(trace[..|trace| - 1]) + if trace[|trace| - 1].ToolStarted? then 1 else 0
  }

  function Closings(trace: seq<Event>): nat {
    if trace == [] then 0
    else
      var last := trace[|trace| - 1];
      Closings(trace[..|trace| - 1]) + if last.ToolFailed? || last.ToolFinished? then 1 else 0
  }

  /** The numbers of requests and of open tool runs each phase stands for. */
  predicate Counts(s: Setting, phase: Phase, requests: nat, open: int) {
    && (open == if phase.Running? then 1 else 0)
    && match phase
       case Fresh => requests == 0
       case Ready(k) => requests == k <= s.maxIterations
       case Warned => requests == s.maxIterations
       case Asked(k, last) => requests == k + 1 && (if last then k == s.maxIterations else k < s.maxIterations)
       case Responded(k, last) => requests == k + 1 && (if last then k == s.maxIterations else k < s.maxIterations)
       case Acted(k, last, _) => requests == k + 1 && (if last then k == s.maxIterations else k < s.maxIterations)
       case Checked(k, _, _) => requests == k + 1 <= s.maxIterations
       case Running(k, _) => requests == k + 1 <= s.maxIterations
       case Reporting(k, _) => requests == k + 1 <= s.maxIterations
       case Ended => requests <= s.maxIterations + 1
       case Wrong => true
  }

  lemma {:induction false} TraceCounts(s: Setting, trace: seq<Event>)
    requires Grammatical(s, trace)
    ensures Counts(s, After(s, trace), Requests(trace), Starts(trace) - Closings(trace))
  {
    if trace != [] {
      TraceCounts(s, trace[..|trace| - 1]);
    }
  }

  /** At most one request more than the tool iterations, and the extra one is forced, offers no
      tools, and comes last. */
  lemma RequestsAreBounded(s: Setting, trace: seq<Event>)
    requires Grammatical(s, trace)
    ensures Requests(trace) <= s.maxIterations + 1
    ensures forall i :: 0 <= i < |trace| && trace[i].ModelRequest? ==>
              && trace[i].iteration == Requests(trace[..i]) + 1
              && (trace[i].forceFinal <==> Requests(trace[..i]) == s.maxIterations)
              && (trace[i].forceFinal ==> !trace[i].offersTools)
  {
    hide Requests, After;
    TraceCounts(s, trace);
    forall i | 0 <= i < |trace| && trace[i].ModelRequest?
      ensures trace[i].iteration == Requests(trace[..i]) + 1
              && (trace[i].forceFinal <==> Requests(trace[..i]) == s.maxIterations)
              && (trace[i].forceFinal ==> !trace[i].offersTools)
    {
      RequestAt(s, trace, i);
    }
  }

  lemma RequestAt(s: Setting, trace: seq<Event>, i: nat)
    requires Grammatical(s, trace) && i < |trace| && trace[i].ModelRequest?
    ensures trace[i].iteration == Requests(trace[..i]) + 1
    ensures trace[i].forceFinal <==> Requests(trace[..i]) == s.maxIterations
    ensures trace[i].forceFinal ==> !trace[i].offersTools
  {
    hide Requests;
    PrefixesAreGrammatical(s, trace, i);
    PrefixesAreGrammatical(s, trace, i + 1);
    assert trace[..i + 1][..i] == trace[..i];
    TraceCounts(s, trace[..i]);
  }

  /** A tool starts only right after its call was validated, and it was valid in the turn's mode. */
  lemma StartFollowsValidation(s: Setting, trace: seq<Event>, i: nat)
    requires Grammatical(s, trace) && i < |trace| && trace[i].ToolStarted?
    ensures i > 0 && trace[i - 1] == Validated(trace[i].tool, true) && ValidCall(s, trace[i].tool)
    ensures trace[i].tool in s.registry && s.mode in s.registry[trace[i].tool].contexts
    ensures s.registry[trace[i].tool].userDecisionRequired ==> trace[i].tool == "role.prepare_binding_proposal"
  {
    PrefixesAreGrammatical(s, trace, i);
    PrefixesAreGrammatical(s, trace, i + 1);
    assert trace[..i + 1][..i] == trace[..i];
    assert After(s, trace[..i]) == Checked(After(s, trace[..i]).k, trace[i].tool, true);
    assert trace[..i][..i - 1] == trace[..i - 1];
    PrefixesAreGrammatical(s, trace, i - 1);
  }

  /** Before every event but a tool's own success or failure, in particular whenever the model is asked
      and when the turn ends, every started tool has been closed by exactly one success or failure; at
      no point is more than one tool open. */
  lemma ToolsAreClosedBeforeRequests(s: Setting, trace: seq<Event>)
    requires Grammatical(s, trace)
    ensures forall i :: 0 <= i <= |trace| ==> 0 <= Starts(trace[..i]) - Closings(trace[..i]) <= 1
    ensures forall i | 0 <= i < |trace| && !trace[i].ToolFinished? && !trace[i].ToolFailed? ::
              Starts(trace[..i]) == Closings(trace[..i])
  {
    forall i | 0 <= i <= |trace| ensures 0 <= Starts(trace[..i]) - Closings(trace[..i]) <= 1 {
      PrefixesAreGrammatical(s, trace, i);
      TraceCounts(s, trace[..i]);
    }
    forall i | 0 <= i < |trace| && !trace[i].ToolFinished? && !trace[i].ToolFailed?
      ensures Starts(trace[..i]) == Closings(trace[..i])
    {
      PrefixesAreGrammatical(s, trace, i);
      PrefixesAreGrammatical(s, trace, i + 1);
      assert trace[..i + 1][..i] == trace[..i];
      TraceCounts(s, trace[..i]);
    }
  }

  /** What follows the start of a tool, if the trace goes on, is that same tool's success or failure; and
      a success or failure always follows the start of its own tool. */
  lemma StartIsClosedAtOnce(s: Setting, trace: seq<Event>, i: nat)
    requires Grammatical(s, trace) && i < |trace|
    ensures trace[i].ToolStarted? && i + 1 < |trace| ==>
              trace[i + 1] == ToolFinished(trace[i].tool) || trace[i + 1] == ToolFailed(trace[i].tool)
    ensures trace[i].ToolFinished? || trace[i].ToolFailed? ==> i > 0 && trace[i - 1] == ToolStarted(trace[i].tool)
  {
    hide Next, After;
    PhaseAt(s, trace, i);
    if i + 1 < |trace| {
      PhaseAt(s, trace, i + 1);
      AfterToolStart(s, After(s, trace[..i]), trace[i], trace[i + 1]);
    }
    if i > 0 {
      PhaseAt(s, trace, i - 1);
      BeforeToolEnd(s, After(s, trace[..i - 1]), trace[i - 1], trace[i]);
    } else {
      NoToolEndAtFirst(s, trace[i]);
    }
  }

  lemma AfterToolStart(s: Setting, phase: Phase, e: Event, f: Event)
    requires e.ToolStarted? ==> Next(s, phase, e) != Wrong && Next(s, Next(s, phase, e), f) != Wrong
    ensures e.ToolStarted? ==> f == ToolFinished(e.tool) || f == ToolFailed(e.tool)
  {
    hide ValidCall;
    if e.ToolStarted? && Next(s, phase, e) != Wrong {
      assert Next(s, phase, e).Running? && Next(s, phase, e).tool == e.tool;
    }
  }

  lemma BeforeToolEnd(s: Setting, phase: Phase, e: Event, f: Event)
    requires f.ToolFinished? || f.ToolFailed? ==> Next(s, Next(s, phase, e), f) != Wrong
    ensures f.ToolFinished? || f.ToolFailed? ==> e == ToolStarted(f.tool)
  {
    hide ValidCall;
    if f.ToolFinished? || f.ToolFailed? {
      OnlyRunningEnds(s, Next(s, phase, e), f);
      OnlyStartRuns(s, phase, e);
    }
  }

  lemma OnlyRunningEnds(s: Setting, phase: Phase, f: Event)
    requires (f.ToolFinished? || f.ToolFailed?) && Next(s, phase, f) != Wrong
    ensures phase.Running? && phase.tool == f.tool
  {
  }

  lemma OnlyStartRuns(s: Setting, phase: Phase, e: Event)
    requires Next(s, phase, e).Running?
    ensures e == ToolStarted(Next(s, phase, e).tool)
  {
    hide ValidCall;
  }

  lemma NoToolEndAtFirst(s: Setting, f: Event)
    requires Next(s, Fresh, f) != Wrong
    ensures !f.ToolFinished? && !f.ToolFailed?
  {
  }

  lemma PhaseAt(s: Setting, trace: seq<Event>, i: nat)
    requires Grammatical(s, trace) && i < |trace|
    ensures After(s, trace[..i + 1]) == Next(s, After(s, trace[..i]), trace[i])
    ensures After(s, trace[..i]) != Wrong && After(s, trace[..i + 1]) != Wrong
    ensures i == 0 ==> After(s, trace[..i]) == Fresh
  {
    hide Next;
    PrefixesAreGrammatical(s, trace, i);
    PrefixesAreGrammatical(s, trace, i + 1);
    assert trace[..i + 1][..i] == trace[..i];
  }
}
