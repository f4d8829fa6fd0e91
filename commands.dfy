/** The application and command records the plugin receives from the QCrBox
    server, as far as the plugin looks into them. */
module Commands {
  import opened Common
  import opened Text

  /** A parameter value as Python holds it: `None`, a boolean, a number, a
      text or a list. */
  datatype Value = VNone | VBool(b: bool) | VNumber(n: int) | VText(s: string) | VList(items: seq<Value>)

  /** Python truthiness of a value. */
  predicate Truthy(v: Value) {
    match v
    case VNone => false
    case VBool(b) => b
    case VNumber(n) => n != 0
    case VText(s) => s != []
    case VList(items) => items != []
  }

  /** A parameter description: the dictionary the server sends for one
      parameter (`dtype`, `default_value`, ...). */
  type ParamInfo = Entries<string, Value>

  /** A command.  `interactive` and `description` are None where the record
      has no such attribute or holds `None` there; `parameters` is None where
      the parameter object has no `additional_properties`. */
  datatype Command = Command(
    id: int,
    name: string,
    application: string,
    interactive: Option<bool>,
    description: Option<string>,
    parameters: Option<Entries<string, ParamInfo>>)

  datatype Application = Application(name: string, commands: seq<Command>)

  /** How a command is shown and selected: `f"{cmd.name}({cmd.application})"`. */
  function Label(cmd: Command): (shown: string)
    ensures |shown| == |cmd.name| + |cmd.application| + 2
    ensures shown[|cmd.name|] == '(' && shown[|shown| - 1] == ')'
  {
    cmd.name + "(" + cmd.application + ")"
  }

  function Labels(cmds: seq<Command>): (labels: seq<string>)
    ensures |labels| == |cmds|
    ensures forall i :: 0 <= i < |cmds| ==> labels[i] == Label(cmds[i])
  {
    seq(|cmds|, i requires 0 <= i < |cmds| => Label(cmds[i]))
  }

  /** The dtype that marks a parameter naming the CIF file a command writes. */
  const OutputCifType: string := "QCrBox.output_cif"

  /** `param_info.get('dtype', '')`. */
  function Dtype(info: ParamInfo): Value {
    match Get(info, "dtype")
    case None => VText("")
    case Some(v) => v
  }

  /** `param_info.get('default_value', '')`. */
  function DeclaredDefault(info: ParamInfo): Value {
    match Get(info, "default_value")
    case None => VText("")
    case Some(v) => v
  }

  predicate IsOutputCif(info: ParamInfo) {
    Dtype(info) == VText(OutputCifType)
  }

  /** Commands whose name starts with `__` are internal to the server. */
  predicate Hidden(cmd: Command) {
    StartsWith(cmd.name, "__")
  }
}
