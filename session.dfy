/** `SessionManager.is_command_interactive` (`qcrbox_plugin/session_manager.py`),
    and its copy `is_command_interactive` in `olex2qcrbox.py`, which has the
    same text: whether a command opens an interactive session rather than
    running as a calculation. */
module Session {
  import opened Common
  import opened Text
  import opened Commands

  const Marker: string := "interactive"

  /** Missing command: not interactive.  Otherwise a set `interactive` flag,
      or the word "interactive" in the lower-cased name or in a non-empty
      lower-cased description, makes it interactive. */
  function IsCommandInteractive(cmd: Option<Command>): (r: bool)
    ensures cmd.None? ==> !r
    ensures cmd.Some? ==>
              (r <==> || cmd.value.interactive == Some(true)
                      || (exists i :: OccursAt(Lower(cmd.value.name), Marker, i))
                      || (cmd.value.description.Some? && cmd.value.description.value != [] &&
                          exists i :: OccursAt(Lower(cmd.value.description.value), Marker, i)))
  {
    match cmd
    case None => false
    case Some(c) =>
      ContainsIff(Lower(c.name), Marker);
      if c.interactive == Some(true) then true
      else if Contains(Lower(c.name), Marker) then true
      else if c.description.Some? && c.description.value != [] then
        ContainsIff(Lower(c.description.value), Marker);
        Contains(Lower(c.description.value), Marker)
      else false
  }

  /** A text without the first letter of t does not contain t. */
  lemma NotContained(s: string, t: string)
    requires t != [] && t[0] !in s
    ensures !Contains(s, t)
  {
    ContainsIff(s, t);
  }

  /** Lower-casing produces an `i` only from `i` or `I`. */
  lemma NoLowerI(s: string)
    requires forall k :: 0 <= k < |s| ==> s[k] != 'i' && s[k] != 'I'
    ensures 'i' !in Lower(s)
  {
  }

  /** The four commands of the session-detection test: a plain command, one
      with "interactive" in its name, one with the flag set, and one with
      "interactive" in its description. */
  lemma PlainCommandExample()
    ensures !IsCommandInteractive(Some(Command(1, "normal_command", "app", Some(false), Some("A normal command"), None)))
  {
    NoLowerI("normal_command");
    NoLowerI("A normal command");
    NotContained(Lower("normal_command"), Marker);
    NotContained(Lower("A normal command"), Marker);
  }

  lemma NamedCommandExample()
    ensures IsCommandInteractive(Some(Command(2, "interactive_session", "app", Some(false), Some("Some command"), None)))
  {
    var n := Lower("interactive_session");
    assert n[0..11] == Marker;
    assert OccursAt(n, Marker, 0);
  }

  lemma FlaggedCommandExample()
    ensures IsCommandInteractive(Some(Command(3, "normal", "app", Some(true), Some("Normal description"), None)))
  {
  }

  lemma DescribedCommandExample()
    ensures IsCommandInteractive(Some(Command(4, "run", "app", Some(false), Some("This is an interactive tool"), None)))
  {
    var d := Lower("This is an interactive tool");
    assert d[11..22] == Marker;
    assert OccursAt(d, Marker, 11);
  }
}
