/** `PluginState` (`qcrbox_plugin/state.py`): the plugin's state in one
    object whose fields the reset methods update in place, and the
    `CalculationStatus` values (`qcrbox_plugin/api_adapter.py`) it records. */
module PluginStates {
  import opened Common
  import opened Commands

  /** The states a calculation on the server can be in. */
  datatype CalculationStatus = Running | Successful | Failed | Stopped

  /** The text value of each status (the enumeration is a `str` enumeration). */
  function StatusText(s: CalculationStatus): (t: string)
    ensures t != []
  {
    match s
    case Running => "running"
    case Successful => "successful"
    case Failed => "failed"
    case Stopped => "stopped"
  }

  /** `CalculationStatus(text)`: the status with that value, if any. */
  function StatusOf(t: string): (s: Option<CalculationStatus>)
    ensures s.Some? ==> StatusText(s.value) == t
  {
    if t == "running" then Some(Running)
    else if t == "successful" then Some(Successful)
    else if t == "failed" then Some(Failed)
    else if t == "stopped" then Some(Stopped)
    else None
  }

  /** Every status is found again from its text, so the four texts differ. */
  lemma StatusRoundTrip(s: CalculationStatus)
    ensures StatusOf(StatusText(s)) == Some(s)
  {
  }

  /** What a run leaves behind: the calculation being polled, the open
      interactive session and the look of the run button. */
  datatype Execution = Execution(
    calculationId: Option<string>,
    calculationStatus: Option<CalculationStatus>,
    sessionId: Option<string>,
    sessionDatasetId: Option<string>,
    isInteractiveSession: bool,
    runButtonText: string,
    runButtonColor: string,
    runButtonEnabled: bool)

  const RunButtonText: string := "Run Command"
  const RunButtonColor: string := "#FFFFFF"

  /** Nothing running, no session, the button ready to run. */
  const Idle: Execution := Execution(None, None, None, None, false, RunButtonText, RunButtonColor, true)

  /** `reset_calculation_state` on the execution part of the state. */
  function ResetCalculation(e: Execution): (r: Execution)
    ensures r.calculationId.None? && r.calculationStatus.None?
    ensures r.(calculationId := e.calculationId, calculationStatus := e.calculationStatus) == e
  {
    e.(calculationId := None, calculationStatus := None)
  }

  /** `reset_session_state` on the execution part of the state. */
  function ResetSession(e: Execution): (r: Execution)
    ensures r.sessionId.None? && r.sessionDatasetId.None? && !r.isInteractiveSession
    ensures r.(sessionId := e.sessionId, sessionDatasetId := e.sessionDatasetId,
               isInteractiveSession := e.isInteractiveSession) == e
  {
    e.(sessionId := None, sessionDatasetId := None, isInteractiveSession := false)
  }

  /** `reset_all_execution_state`: both resets, then the button defaults. */
  function ResetAll(e: Execution): (r: Execution)
  {
    ResetSession(ResetCalculation(e)).(runButtonText := RunButtonText, runButtonColor := RunButtonColor,
                                       runButtonEnabled := true)
  }

  /** Whatever happened before, resetting everything returns to the state of
      a fresh `PluginState`. */
  lemma ResetAllIsIdle(e: Execution)
    ensures ResetAll(e) == Idle
  {
  }

  /** Resetting everything twice is resetting it once. */
  lemma ResetAllIdempotent(e: Execution)
    ensures ResetAll(ResetAll(e)) == ResetAll(e)
  {
    ResetAllIsIdle(e);
    ResetAllIsIdle(ResetAll(e));
  }

  /** The two partial resets touch disjoint fields: their order does not
      matter, and each undoes nothing of the other. */
  lemma ResetsCommute(e: Execution)
    ensures ResetSession(ResetCalculation(e)) == ResetCalculation(ResetSession(e))
    ensures ResetCalculation(e).sessionId == e.sessionId && ResetSession(e).calculationId == e.calculationId
  {
  }

  /** The first command whose label is `selected`, if any. */
  function FindByLabel(cmds: seq<Command>, selected: string): (r: Option<Command>)
    ensures r.None? <==> forall i :: 0 <= i < |cmds| ==> Label(cmds[i]) != selected
    ensures r.Some? ==> exists i :: 0 <= i < |cmds| && cmds[i] == r.value && Label(cmds[i]) == selected &&
                                    forall j :: 0 <= j < i ==> Label(cmds[j]) != selected
  {
    if cmds == [] then None
    else if Label(cmds[0]) == selected then Some(cmds[0])
    else
      var r := FindByLabel(cmds[1..], selected);
      assert forall j :: 1 <= j < |cmds| ==> cmds[j] == cmds[1..][j - 1];
      r
  }

  class PluginState {
    // Applications and commands
    var applications: seq<Application>
    var commands: seq<Command>
    var selectedCommand: Option<string>
    var parameterStates: Entries<int, Entries<string, Value>>
    var qcrboxAvailable: bool
    // Calculation (non-interactive commands)
    var currentCalculationId: Option<string>
    var currentCalculationStatus: Option<CalculationStatus>
    // Interactive session
    var currentSessionId: Option<string>
    var currentSessionDatasetId: Option<string>
    var isInteractiveSession: bool
    // Run button
    var runButtonText: string
    var runButtonColor: string
    var runButtonEnabled: bool

    /** The execution part of the state, as one value. */
    ghost function Exec(): Execution
      reads this
    {
      Execution(currentCalculationId, currentCalculationStatus, currentSessionId, currentSessionDatasetId,
                isInteractiveSession, runButtonText, runButtonColor, runButtonEnabled)
    }

    /** The dataclass defaults: no applications, no commands, nothing
        selected, the server not known to be up, and nothing running. */
    constructor()
      ensures applications == [] && commands == [] && selectedCommand == None && parameterStates == []
      ensures !qcrboxAvailable
      ensures Exec() == Idle
    {
      applications := [];
      commands := [];
      selectedCommand := None;
      parameterStates := [];
      qcrboxAvailable := false;
      currentCalculationId := None;
      currentCalculationStatus := None;
      currentSessionId := None;
      currentSessionDatasetId := None;
      isInteractiveSession := false;
      runButtonText := RunButtonText;
      runButtonColor := RunButtonColor;
      runButtonEnabled := true;
    }

    /** The command data, which the resets leave alone. */
    ghost predicate SameCommandData(applications0: seq<Application>, commands0: seq<Command>,
                                    selected0: Option<string>, states0: Entries<int, Entries<string, Value>>,
                                    available0: bool)
      reads this
    {
      applications == applications0 && commands == commands0 && selectedCommand == selected0 &&
      parameterStates == states0 && qcrboxAvailable == available0
    }

    method ResetCalculationState()
      modifies this
      ensures Exec() == ResetCalculation(old(Exec()))
      ensures SameCommandData(old(applications), old(commands), old(selectedCommand), old(parameterStates),
                              old(qcrboxAvailable))
    {
      currentCalculationId := None;
      currentCalculationStatus := None;
    }

    method ResetSessionState()
      modifies this
      ensures Exec() == ResetSession(old(Exec()))
      ensures SameCommandData(old(applications), old(commands), old(selectedCommand), old(parameterStates),
                              old(qcrboxAvailable))
    {
      currentSessionId := None;
      currentSessionDatasetId := None;
      isInteractiveSession := false;
    }

    method ResetAllExecutionState()
      modifies this
      ensures Exec() == ResetAll(old(Exec())) && Exec() == Idle
      ensures SameCommandData(old(applications), old(commands), old(selectedCommand), old(parameterStates),
                              old(qcrboxAvailable))
    {
      ResetCalculationState();
      ResetSessionState();
      runButtonText := RunButtonText;
      runButtonColor := RunButtonColor;
      runButtonEnabled := true;
      ResetAllIsIdle(old(Exec()));
    }

    /** `get_selected_command_obj`: nothing when no command is selected (None
        or the empty text); otherwise the first command whose label is the
        selection, or nothing when none has it. */
    function GetSelectedCommandObj(): (r: Option<Command>)
      reads this
      ensures r.None? <==> selectedCommand.None? || selectedCommand.value == [] ||
                           forall i :: 0 <= i < |commands| ==> Label(commands[i]) != selectedCommand.value
      ensures r.Some? ==> exists i :: 0 <= i < |commands| && commands[i] == r.value &&
                                      Some(Label(commands[i])) == selectedCommand &&
                                      forall j :: 0 <= j < i ==> Label(commands[j]) != selectedCommand.value
    {
      if selectedCommand.None? || selectedCommand.value == [] || commands == [] then None
      else FindByLabel(commands, selectedCommand.value)
    }
  }

  /** The state test: a calculation marked running is cleared by the
      calculation reset, while the session part is kept. */
  method CalculationResetExample() returns (s: PluginState)
    ensures s.currentCalculationId == None && s.currentCalculationStatus == None
    ensures s.currentSessionId == Some("session-1")
  {
    s := new PluginState();
    s.currentCalculationId := Some("test-calc-123");
    s.currentCalculationStatus := Some(Running);
    s.currentSessionId := Some("session-1");
    s.ResetCalculationState();
  }
}
