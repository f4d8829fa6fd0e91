/** The command and parameter bookkeeping of the Olex2 plugin object
    (`olex2qcrbox.py`): the commands loaded from the server, the selected
    command, and the parameter values kept per command id. */
module Olex2Plugin {
  import opened Common
  import opened Text
  import opened Commands

  /** Parameter values per command id, and per parameter name within a
      command. */
  type States = Entries<int, Entries<string, Value>>

  // ---------------------------------------------------------------------------
  // Loading the applications: which commands are kept, which defaults are set
  // ---------------------------------------------------------------------------

  /** `[cmd for cmd in cmds if not cmd.name.startswith('__')]`. */
  function Public(cmds: seq<Command>): (r: seq<Command>)
    ensures |r| <= |cmds|
    ensures forall c :: c in r ==> c in cmds && !Hidden(c)
    ensures forall c :: c in cmds && !Hidden(c) ==> c in r
  {
    if cmds == [] then []
    else (if Hidden(cmds[0]) then [] else [cmds[0]]) + Public(cmds[1..])
  }

  /** The public commands of all applications, application by application. */
  function PublicCommands(apps: seq<Application>): (r: seq<Command>)
    ensures forall c :: c in r ==> !Hidden(c) && exists i :: 0 <= i < |apps| && c in apps[i].commands
    ensures forall i, c :: 0 <= i < |apps| && c in apps[i].commands && !Hidden(c) ==> c in r
  {
    if apps == [] then []
    else
      var front := apps[..|apps| - 1];
      var r := PublicCommands(front) + Public(apps[|apps| - 1].commands);
      assert forall i :: 0 <= i < |front| ==> apps[i] == front[i];
      r
  }

  /** The filter keeps a single command iff it is not hidden. */
  lemma PublicOne(c: Command)
    ensures Public([c]) == if Hidden(c) then [] else [c]
  {
    assert [c][1..] == [];
  }

  /** The filter works element by element: filtering a concatenation is
      concatenating the filtered parts, so order and repetitions are kept. */
  lemma {:induction false} PublicAppend(a: seq<Command>, b: seq<Command>)
    ensures Public(a + b) == Public(a) + Public(b)
    decreases |a|
  {
    if a == [] {
      assert a + b == b;
    } else {
      var head := if Hidden(a[0]) then [] else [a[0]];
      var x, y := Public(a[1..]), Public(b);
      assert (a + b)[0] == a[0];
      assert (a + b)[1..] == a[1..] + b;
      assert Public(a + b) == head + Public(a[1..] + b);
      PublicAppend(a[1..], b);
      AppendAssoc(head, x, y);
    }
  }

  /** One more application adds its public commands at the end. */
  lemma PublicCommandsSnoc(apps: seq<Application>, app: Application)
    ensures PublicCommands(apps + [app]) == PublicCommands(apps) + Public(app.commands)
  {
    var all := apps + [app];
    assert all[..|all| - 1] == apps;
    assert all[|all| - 1] == app;
  }

  /** One application contributes its public commands in its own order. */
  lemma PublicCommandsOne(app: Application)
    ensures PublicCommands([app]) == Public(app.commands)
  {
    PublicCommandsSnoc([], app);
    assert [] + [app] == [app];
  }

  /** The commands of a list of applications are those of the first part
      followed by those of the rest. */
  lemma {:induction false} PublicCommandsAppend(a: seq<Application>, b: seq<Application>)
    ensures PublicCommands(a + b) == PublicCommands(a) + PublicCommands(b)
    decreases |b|
  {
    if b == [] {
      assert a + b == a;
    } else {
      var front, last := b[..|b| - 1], b[|b| - 1];
      var x, y, p := PublicCommands(a), PublicCommands(front), Public(last.commands);
      assert b == front + [last];
      assert a + b == (a + front) + [last];
      PublicCommandsAppend(a, front);
      PublicCommandsSnoc(a + front, last);
      PublicCommandsSnoc(front, last);
      AppendAssoc(x, y, p);
      calc {
        PublicCommands(a + b);
        PublicCommands((a + front) + [last]);
        PublicCommands(a + front) + p;
        (x + y) + p;
        x + (y + p);
        x + PublicCommands(b);
      }
    }
  }

  /** The value a parameter starts with: its declared default, except that an
      output CIF parameter without a (truthy) default is named `output`, and
      that a `None` default becomes the empty text. */
  function DefaultValue(info: ParamInfo): (v: Value)
    ensures v != VNone
    ensures IsOutputCif(info) ==> Truthy(v)
    ensures Truthy(DeclaredDefault(info)) ==> v == DeclaredDefault(info)
    ensures !IsOutputCif(info) && DeclaredDefault(info) != VNone ==> v == DeclaredDefault(info)
    ensures IsOutputCif(info) && !Truthy(DeclaredDefault(info)) ==> v == VText("output")
    ensures !IsOutputCif(info) && DeclaredDefault(info) == VNone ==> v == VText("")
  {
    var declared := DeclaredDefault(info);
    var filled := if IsOutputCif(info) && !Truthy(declared) then VText("output") else declared;
    if filled == VNone then VText("") else filled
  }

  function DefaultPairs(params: Entries<string, ParamInfo>): (r: Entries<string, Value>)
    ensures |r| == |params|
    ensures forall k :: 0 <= k < |params| ==> r[k] == (params[k].0, DefaultValue(params[k].1))
  {
    seq(|params|, k requires 0 <= k < |params| => (params[k].0, DefaultValue(params[k].1)))
  }

  /** The parameter dictionary a loaded command starts with. */
  function DefaultStates(params: Option<Entries<string, ParamInfo>>): Entries<string, Value> {
    match params
    case None => []
    case Some(ps) => PutAll([], DefaultPairs(ps))
  }

  function StatePairs(cmds: seq<Command>): (r: Entries<int, Entries<string, Value>>)
    ensures |r| == |cmds|
    ensures forall i :: 0 <= i < |cmds| ==> r[i] == (cmds[i].id, DefaultStates(cmds[i].parameters))
  {
    seq(|cmds|, i requires 0 <= i < |cmds| => (cmds[i].id, DefaultStates(cmds[i].parameters)))
  }

  /** The states after loading: each command's entry replaced by its defaults,
      command by command. */
  function FillStates(states: States, cmds: seq<Command>): States {
    PutAll(states, StatePairs(cmds))
  }

  /** Loading one more command puts its defaults in. */
  lemma FillStatesSnoc(states: States, cmds: seq<Command>, j: nat)
    requires j < |cmds|
    ensures FillStates(states, cmds[..j + 1]) == Put(FillStates(states, cmds[..j]), cmds[j].id, DefaultStates(cmds[j].parameters))
  {
    assert StatePairs(cmds[..j + 1]) == StatePairs(cmds[..j]) + [(cmds[j].id, DefaultStates(cmds[j].parameters))];
    PutAllSnoc(states, StatePairs(cmds[..j]), cmds[j].id, DefaultStates(cmds[j].parameters));
  }

  /** Filling one more parameter puts its default in. */
  lemma DefaultsSnoc(ps: Entries<string, ParamInfo>, k: nat)
    requires k < |ps|
    ensures PutAll([], DefaultPairs(ps[..k + 1])) == Put(PutAll([], DefaultPairs(ps[..k])), ps[k].0, DefaultValue(ps[k].1))
  {
    assert DefaultPairs(ps[..k + 1]) == DefaultPairs(ps[..k]) + [(ps[k].0, DefaultValue(ps[k].1))];
    PutAllSnoc([], DefaultPairs(ps[..k]), ps[k].0, DefaultValue(ps[k].1));
  }

  /** The public commands of one more application, appended. */
  lemma CollectOneMore(apps: seq<Application>, i: nat, cmds: seq<Command>, i': nat, cmds': seq<Command>)
    requires i < |apps| && i' == i + 1
    requires cmds == PublicCommands(apps[..i]) && cmds' == cmds + Public(apps[i].commands)
    ensures cmds' == PublicCommands(apps[..i'])
  {
    assert apps[..i + 1][..i] == apps[..i];
  }

  /** The defaults of one more command, put in. */
  lemma FillOneMore(states: States, cmds: seq<Command>, j: nat, filled: States, j': nat, filled': States)
    requires j < |cmds| && j' == j + 1 && filled == FillStates(states, cmds[..j])
    requires filled' == Put(filled, cmds[j].id, DefaultStates(cmds[j].parameters))
    ensures filled' == FillStates(states, cmds[..j'])
  {
    FillStatesSnoc(states, cmds, j);
  }

  predicate DistinctIds(cmds: seq<Command>) {
    forall i, j :: 0 <= i < j < |cmds| ==> cmds[i].id != cmds[j].id
  }

  // ---------------------------------------------------------------------------
  // Reading and writing one parameter value
  // ---------------------------------------------------------------------------

  /** `self.parameter_states.get(command_id, {}).get(parameter_name, None)`. */
  function StateOf(states: States, id: int, name: string): Value {
    match Get(states, id)
    case None => VNone
    case Some(d) =>
      match Get(d, name)
      case None => VNone
      case Some(v) => v
  }

  /** What `set_parameter_state` leaves: the value is put into the command's
      dictionary, or a dictionary holding only it is added for the command. */
  function SetState(states: States, id: int, name: string, v: Value): States {
    match Get(states, id)
    case Some(d) => Put(states, id, Put(d, name, v))
    case None => Put(states, id, [(name, v)])
  }

  /** Reading back the value just set gives it; every other value, of this
      command or another, is as it was. */
  lemma {:induction false} StateOfSet(states: States, id: int, name: string, v: Value, id': int, name': string)
    ensures StateOf(SetState(states, id, name, v), id', name') ==
            if id' == id && name' == name then v else StateOf(states, id', name')
  {
    var inner := match Get(states, id) case Some(d) => d case None => [];
    assert Get(states, id).None? ==> [(name, v)] == Put(inner, name, v);
    GetPut(states, id, Put(inner, name, v), id');
    GetPut(inner, name, v, name');
  }

  /** A command id as the GUI passes it: a number or its decimal text. */
  datatype IdArg = IdNumber(n: int) | IdText(t: string)

  /** `int(command_id)`; None where Python raises ValueError. */
  function CommandIdOf(a: IdArg): (r: Option<int>)
    ensures a.IdNumber? ==> r == Some(a.n)
    ensures a.IdText? ==> r == ParseInt(a.t)
  {
    match a
    case IdNumber(n) => Some(n)
    case IdText(t) => ParseInt(t)
  }

  /** The text of a number denotes the same command as the number. */
  lemma SameCommandId(n: int)
    ensures CommandIdOf(IdText(IntToString(n))) == CommandIdOf(IdNumber(n))
  {
    IntToStringParses(n);
  }

  /** The ValueError `int()` raises for an argument that is no integer. */
  datatype BadCommandId = BadCommandId(arg: IdArg)

  // ---------------------------------------------------------------------------
  // Commands: whether one writes a CIF file
  // ---------------------------------------------------------------------------

  /** Some parameter has the output CIF dtype. */
  function AnyOutputCif(params: Entries<string, ParamInfo>): (r: bool)
    ensures r <==> exists k :: 0 <= k < |params| && IsOutputCif(params[k].1)
  {
    if params == [] then false
    else
      var rest := AnyOutputCif(params[1..]);
      assert forall k :: 1 <= k < |params| ==> params[k] == params[1..][k - 1];
      IsOutputCif(params[0].1) || rest
  }

  /** `command_has_output_cif`: no command, or a command without parameter
      dictionary, writes no CIF; otherwise some parameter must have the
      output CIF dtype. */
  function CommandHasOutputCif(cmd: Option<Command>): (r: bool)
    ensures r <==> cmd.Some? && cmd.value.parameters.Some? &&
                   exists k :: 0 <= k < |cmd.value.parameters.value| && IsOutputCif(cmd.value.parameters.value[k].1)
  {
    match cmd
    case None => false
    case Some(c) =>
      match c.parameters
      case None => false
      case Some(ps) => AnyOutputCif(ps)
  }

  /** The text the command selector is filled from. */
  const NoCommands: string := "No commands available"

  /** A non-empty label list joined by `;` shows the first label's bracket. */
  lemma JoinHasBracket(labels: seq<string>)
    requires |labels| >= 1 && '(' in labels[0]
    ensures '(' in Join(labels, ";")
  {
    var k :| 0 <= k < |labels[0]| && labels[0][k] == '(';
    if |labels| > 1 {
      assert Join(labels, ";")[k] == labels[0][k];
    }
  }

  // ---------------------------------------------------------------------------
  // The plugin object
  // ---------------------------------------------------------------------------

  class QcrBoxPlugin {
    var applications: seq<Application>
    var commands: seq<Command>
    var selectedCommand: Option<string>
    var parameterStates: States

    /** The command data a freshly constructed plugin starts from, before
        it loads the applications. */
    constructor()
      ensures applications == [] && commands == [] && selectedCommand == None && parameterStates == []
    {
      applications := [];
      commands := [];
      selectedCommand := None;
      parameterStates := [];
    }

    /** `load_applications` after the server has answered: `response` is the
        applications of the answer, or None when the answer has none or the
        request failed.  The public commands are collected, each gets a fresh
        parameter dictionary filled with its defaults, and the first of them
        is selected. */
    method LoadApplications(response: Option<seq<Application>>)
      modifies this
      ensures response.None? ==>
                applications == [] && commands == [] &&
                selectedCommand == old(selectedCommand) && parameterStates == old(parameterStates)
      ensures response.Some? ==>
                applications == response.value && commands == PublicCommands(response.value) &&
                parameterStates == FillStates(old(parameterStates), commands) &&
                selectedCommand == if commands == [] then old(selectedCommand) else Some(Label(commands[0]))
    {
      if response.None? {
        applications := [];
        commands := [];
        return;
      }
      var apps := response.value;
      ghost var states0 := parameterStates;
      applications := apps;
      commands := [];
      var i := 0;
      while i < |apps|
        invariant 0 <= i <= |apps|
        invariant commands == PublicCommands(apps[..i])
        invariant applications == apps && parameterStates == states0 && selectedCommand == old(selectedCommand)
      {
        ghost var commands0, i0 := commands, i;
        commands := commands + Public(apps[i].commands);
        i := i + 1;
        CollectOneMore(apps, i0, commands0, i, commands);
      }
      assert apps[..|apps|] == apps;
      var j := 0;
      while j < |commands|
        invariant 0 <= j <= |commands|
        invariant parameterStates == FillStates(states0, commands[..j])
        invariant commands == PublicCommands(apps) && applications == apps && selectedCommand == old(selectedCommand)
      {
        var cmd := commands[j];
        var defaults := FillDefaults(cmd);
        ghost var filled0, j0 := parameterStates, j;
        parameterStates := Put(parameterStates, cmd.id, defaults);
        j := j + 1;
        FillOneMore(states0, commands, j0, filled0, j, parameterStates);
      }
      assert commands[..|commands|] == commands;
      if commands != [] {
        selectedCommand := Some(Label(commands[0]));
      }
    }

    /** `generate_command_list_string`. */
    function CommandListString(): (r: string)
      reads this
      ensures r == NoCommands <==> commands == []
      ensures commands != [] && (forall i :: 0 <= i < |commands| ==> ';' !in Label(commands[i])) ==>
                Split(r, ';') == Labels(commands)
    {
      if commands == [] then NoCommands
      else
        var labels := Labels(commands);
        assert labels[0][|commands[0].name|] == '(';
        JoinHasBracket(labels);
        assert '(' !in NoCommands;
        if forall i :: 0 <= i < |labels| ==> ';' !in labels[i] then
          SplitJoin(labels, ';');
          Join(labels, ";")
        else Join(labels, ";")
    }

    /** `set_parameter_state`: the id is converted with `int()` first; when
        that fails nothing changes. */
    method SetParameterState(commandId: IdArg, name: string, v: Value) returns (r: Result<(), BadCommandId>)
      modifies this
      ensures r.Ok? <==> CommandIdOf(commandId).Some?
      ensures r.Err? ==> r.error == BadCommandId(commandId) && parameterStates == old(parameterStates)
      ensures r.Ok? ==> parameterStates == SetState(old(parameterStates), CommandIdOf(commandId).value, name, v)
      ensures applications == old(applications) && commands == old(commands) && selectedCommand == old(selectedCommand)
    {
      var id := CommandIdOf(commandId);
      if id.None? {
        return Err(BadCommandId(commandId));
      }
      if HasKey(parameterStates, id.value) {
        var d := Get(parameterStates, id.value).value;
        parameterStates := Put(parameterStates, id.value, Put(d, name, v));
      } else {
        parameterStates := Put(parameterStates, id.value, [(name, v)]);
      }
      return Ok(());
    }

    /** `get_parameter_state`: the stored value, `None` when there is none,
        or the ValueError of `int()`. */
    function GetParameterState(commandId: IdArg, name: string): (r: Result<Value, BadCommandId>)
      reads this
      ensures r.Err? <==> CommandIdOf(commandId).None?
      ensures r.Err? ==> r.error == BadCommandId(commandId)
      ensures r.Ok? && !HasKey(parameterStates, CommandIdOf(commandId).value) ==> r.value == VNone
      ensures r.Ok? ==> var id := CommandIdOf(commandId).value;
                        Get(parameterStates, id).Some? ==>
                          var d := Get(parameterStates, id).value;
                          && (!HasKey(d, name) ==> r.value == VNone)
                          && (HasKey(d, name) ==> r.value == Get(d, name).value)
      ensures r.Ok? ==> r.value == StateOf(parameterStates, CommandIdOf(commandId).value, name)
    {
      match CommandIdOf(commandId)
      case None => Err(BadCommandId(commandId))
      case Some(id) => Ok(StateOf(parameterStates, id, name))
    }
  }

  /** The parameters of one command, with their defaults, in the order the
      server lists them. */
  method FillDefaults(cmd: Command) returns (d: Entries<string, Value>)
    ensures d == DefaultStates(cmd.parameters)
  {
    d := [];
    if cmd.parameters.None? {
      return;
    }
    var ps := cmd.parameters.value;
    var k := 0;
    while k < |ps|
      invariant 0 <= k <= |ps|
      invariant d == PutAll([], DefaultPairs(ps[..k]))
    {
      var info := ps[k].1;
      var value := DeclaredDefault(info);
      if Dtype(info) == VText(OutputCifType) && !Truthy(value) {
        value := VText("output");
      }
      if value == VNone {
        value := VText("");
      }
      d := Put(d, ps[k].0, value);
      DefaultsSnoc(ps, k);
      k := k + 1;
    }
    assert ps[..|ps|] == ps;
  }

  // ---------------------------------------------------------------------------
  // What loading promises
  // ---------------------------------------------------------------------------

  /** After loading, every parameter of a command (ids being distinct, as the
      server hands them out) reads back its default: never `None`, and for an
      output CIF parameter a non-empty name. */
  lemma {:induction false} LoadedDefault(states: States, cmds: seq<Command>, i: nat, k: nat)
    requires DistinctIds(cmds) && i < |cmds|
    requires cmds[i].parameters.Some? && DistinctKeys(cmds[i].parameters.value)
    requires k < |cmds[i].parameters.value|
    ensures var p := cmds[i].parameters.value[k];
            StateOf(FillStates(states, cmds), cmds[i].id, p.0) == DefaultValue(p.1)
  {
    var pairs := StatePairs(cmds);
    GetPutAll(states, pairs, cmds[i].id);
    LastValueDistinctAt(pairs, i);
    var ps := cmds[i].parameters.value;
    var dp := DefaultPairs(ps);
    assert [] + dp == dp;
    PutAllDistinct([], dp);
    GetDistinctAt(dp, k);
  }

  /** A loaded command that writes a CIF file has an output name filled in. */
  lemma LoadedOutputName(states: States, cmds: seq<Command>, i: nat)
    requires DistinctIds(cmds) && i < |cmds|
    requires cmds[i].parameters.Some? && DistinctKeys(cmds[i].parameters.value)
    requires CommandHasOutputCif(Some(cmds[i]))
    ensures exists name :: Truthy(StateOf(FillStates(states, cmds), cmds[i].id, name))
  {
    var ps := cmds[i].parameters.value;
    var k :| 0 <= k < |ps| && IsOutputCif(ps[k].1);
    LoadedDefault(states, cmds, i, k);
  }

  /** Setting a value and reading it back through the plugin object gives the
      value; other values are untouched. */
  method SetThenGet(p: QcrBoxPlugin, commandId: IdArg, name: string, v: Value, other: string)
    returns (back: Result<Value, BadCommandId>, untouched: bool)
    requires other != name
    modifies p
    ensures CommandIdOf(commandId).Some? ==> back == Ok(v) && untouched
  {
    var before := p.GetParameterState(commandId, other);
    var r := p.SetParameterState(commandId, name, v);
    back := p.GetParameterState(commandId, name);
    var after := p.GetParameterState(commandId, other);
    untouched := before == after;
    if r.Ok? {
      var id := CommandIdOf(commandId).value;
      StateOfSet(old(p.parameterStates), id, name, v, id, name);
      StateOfSet(old(p.parameterStates), id, name, v, id, other);
    }
  }
}
