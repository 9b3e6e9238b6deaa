/**
 * The terminal command hook: a command table, a history log and an output
 * string, changed by `runCommand`, `addCommand` and `handleSpecialCommand`.
 */
module TerminalCommands {
  import opened Wrappers
  import opened JsString

  /** What the promise of a command's action settles to; `Rejected` carries
      the text the thrown value converts to. */
  datatype Outcome = Resolved(value: string) | Rejected(error: string)

  /** A table entry. The action is foreign code, given as a total function
      of the arguments. */
  datatype Command = Command(command: string, description: string, action: seq<string> -> Outcome)

  /** `input.trim().split(/\s+/)`, taken apart as `[cmd, ...args]`. */
  function Tokenize(input: string): (r: (string, seq<string>))
    ensures NoSpace(r.0)
    ensures r.0 == "" <==> AllSpace(input)
    ensures AllSpace(input) ==> r.1 == []
    ensures forall k :: 0 <= k < |r.1| ==> IsToken(r.1[k])
  {
    var t := Trim(input);
    var parts := SplitWs(t);
    TrimEmptyIff(input);
    assert t != [] ==> forall k :: 0 <= k < |parts| ==> IsToken(parts[k]) by {
      if t != [] { SplitTrimmedTokens(t); }
    }
    assert t == [] ==> parts == [""];
    (parts[0], parts[1..])
  }

  /** Whatever white space surrounds or separates them, tokens come back as
      the command name and its arguments, in order. */
  lemma TokenizeJoin(p: string, ts: seq<string>, seps: seq<string>, q: string)
    requires AllSpace(p) && AllSpace(q)
    requires |ts| == |seps| + 1
    requires forall k :: 0 <= k < |ts| ==> IsToken(ts[k])
    requires forall k :: 0 <= k < |seps| ==> IsSeparator(seps[k])
    ensures Tokenize(p + JoinWith(ts, seps) + q) == (ts[0], ts[1..])
  {
    JoinWithShape(ts, seps);
    TrimPadded(p, JoinWith(ts, seps), q);
    SplitJoin(ts, seps);
  }

  /** `commands.find(c => c.command === name)`, as a position: the first
      command whose name is exactly `name`. */
  function Find(commands: seq<Command>, name: string): (r: Option<nat>)
    ensures r.Some? ==> r.value < |commands| && commands[r.value].command == name
    ensures r.Some? ==> forall j :: 0 <= j < r.value ==> commands[j].command != name
    ensures r.None? ==> forall j :: 0 <= j < |commands| ==> commands[j].command != name
  {
    if commands == [] then None
    else if commands[0].command == name then Some(0)
    else match Find(commands[1..], name)
      case None => None
      case Some(k) => Some(k + 1)
  }

  /** How a `runCommand` call went: no such command, or the action of the
      command at `index` ran on `args`. */
  datatype Run = NotFound(name: string) | Ran(index: nat, args: seq<string>, outcome: Outcome)

  /** The decision `runCommand` makes for `input` against the table. */
  function Dispatch(commands: seq<Command>, input: string): (r: Run)
    ensures r.NotFound? <==> forall j :: 0 <= j < |commands| ==> commands[j].command != Tokenize(input).0
    ensures r.NotFound? ==> r.name == Tokenize(input).0
    ensures r.Ran? ==> && r.index < |commands|
                       && commands[r.index].command == Tokenize(input).0
                       && (forall j :: 0 <= j < r.index ==> commands[j].command != Tokenize(input).0)
                       && r.args == Tokenize(input).1
                       && r.outcome == commands[r.index].action(r.args)
  {
    var (cmd, args) := Tokenize(input);
    match Find(commands, cmd)
    case None => NotFound(cmd)
    case Some(k) => Ran(k, args, commands[k].action(args))
  }

  /** The string `runCommand` shows and returns. */
  function Text(r: Run): string
  {
    match r
    case NotFound(name) => "Command not found: " + name
    case Ran(_, _, Resolved(v)) => v
    case Ran(_, _, Rejected(e)) => "Error executing command: " + e
  }

  /** The one line `handleSpecialCommand` answers with, chosen by the lower
      case of the command. */
  function SpecialResponse(command: string): string
  {
    var c := ToLower(command);
    if c == "prepare" then ">> system primed for data extraction"
    else if c == "question" then ">> secure line open for inquiries"
    else if c == "join" then ">> initiating recruitment protocol"
    else if c == "wake up" then ">> Hello, friend. You've been sleeping too long."
    else ">> command not recognized"
  }

  /** The response does not depend on case: a command and its lower case
      get the same line. */
  lemma {:induction false} SpecialResponseIgnoresCase(command: string)
    ensures SpecialResponse(ToLower(command)) == SpecialResponse(command)
  {
    ToLowerIdempotent(command);
  }

  /** Only the four known words, in any case, get a specific response. */
  lemma SpecialResponseKnown(command: string)
    ensures SpecialResponse(command) != ">> command not recognized" <==>
      ToLower(command) in ["prepare", "question", "join", "wake up"]
  {
  }

  class Terminal {
    var commands: seq<Command>
    var history: seq<string>
    var output: string

    constructor (initialCommands: seq<Command>)
      ensures commands == initialCommands && history == [] && output == ""
    {
      commands, history, output := initialCommands, [], "";
    }

    /** `runCommand(input)`: log the raw input, then look the first token up
        and run its action on the other tokens. */
    method RunCommand(input: string) returns (result: string)
      modifies this`history, this`output
      ensures history == old(history) + [input]
      ensures result == output == Text(Dispatch(commands, input))
    {
      history := history + [input];
      var (cmd, args) := Tokenize(input);
      var command := Find(commands, cmd);
      if command.None? {
        var errMsg := "Command not found: " + cmd;
        output := errMsg;
        return errMsg;
      }
      var outcome := commands[command.value].action(args);
      match outcome {
        case Resolved(v) =>
          output := v;
          result := v;
        case Rejected(e) =>
          var errMsg := "Error executing command: " + e;
          output := errMsg;
          result := errMsg;
      }
    }

    /** `addCommand(c)`: append to the table. */
    method AddCommand(c: Command)
      modifies this`commands
      ensures commands == old(commands) + [c]
    {
      commands := commands + [c];
    }

    /** `handleSpecialCommand(command)`: log the echo and the response. */
    method HandleSpecialCommand(command: string)
      modifies this`history
      ensures history == old(history) + ["> " + command, SpecialResponse(command)]
    {
      history := history + ["> " + command];
      history := history + [SpecialResponse(command)];
    }
  }
}
