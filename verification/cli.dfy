/**
  The command line of the tool (Program.cs:13-78): look up flag values and
  map the verb and the handler's outcome to the process exit code.

  The three handlers are abstract. `BuildDatabase` and `ExportScripts` are
  parameters that report how they ended. Each one either returns, or
  catches its own error and ends the process with `Environment.Exit(1)`,
  or throws. `UpdateDatabase` is modelled as written: it always throws.
 */
module Cli {
  import opened Results

  /** The verbs the tool understands. */
  datatype Verb = BuildDb | ExportScripts | UpdateDb

  /** A handler call: the verb and the values of its two flags, in the order they are looked up. */
  datatype Invocation = Invocation(verb: Verb, first: string, second: string)

  /** How a handler ended. */
  datatype HandlerOutcome =
    | Completed
    | ExitedWithFailure   // the handler's own catch block called Environment.Exit(1)
    | Threw(message: string)

  /** The process exit code and the handler call made on the way, if any. */
  datatype MainResult = MainResult(exitCode: int, invoked: Option<Invocation>)

  /** `GetArgValue` throws this when a flag has no value. */
  datatype ArgError = MissingParameter(name: string)

  /** `Array.IndexOf`: the position of the first `name`, or -1. */
  function IndexOf(args: seq<string>, name: string): (idx: int)
    ensures -1 <= idx < |args|
    ensures idx == -1 <==> name !in args
    ensures 0 <= idx ==> args[idx] == name && name !in args[..idx]
  {
    if |args| == 0 then -1
    else if args[0] == name then 0
    else
      var i := IndexOf(args[1..], name);
      assert args[1..][..i + 1] == args[1..i + 2];
      if i == -1 then -1 else i + 1
  }

  /**
    `GetArgValue`: the element right after the first occurrence of `name`.
    It fails when `name` is absent or its first occurrence is the last
    element. The value is returned as it is, even if it is another flag.
   */
  function GetArgValue(args: seq<string>, name: string): (r: Result<string, ArgError>)
    ensures r.Ok? <==> exists i :: 0 <= i < |args| - 1 && args[i] == name && name !in args[..i]
    ensures forall i :: 0 <= i < |args| - 1 && args[i] == name && name !in args[..i] ==> r == Ok(args[i + 1])
    ensures r.Err? ==> r.error == MissingParameter(name)
  {
    var idx := IndexOf(args, name);
    if idx == -1 || idx + 1 >= |args| then Err(MissingParameter(name))
    else Ok(args[idx + 1])
  }

  /** `Char.ToLowerInvariant` on the ASCII letters. */
  function LowerChar(c: char): char
  {
    if 'A' <= c <= 'Z' then (c as int - 'A' as int + 'a' as int) as char else c
  }

  predicate IsAsciiUpper(c: char)
  {
    'A' <= c <= 'Z'
  }

  /** `x` and `y` are the same character, or the upper- and lower-case forms of one ASCII letter. */
  predicate SameIgnoringAsciiCase(x: char, y: char)
  {
    || x == y
    || (IsAsciiUpper(x) && y as int == x as int + 32)
    || (IsAsciiUpper(y) && x as int == y as int + 32)
  }

  /** Equal up to the case of ASCII letters, position by position. */
  predicate EqualsIgnoreAsciiCase(a: string, b: string)
  {
    |a| == |b| && forall i :: 0 <= i < |a| ==> SameIgnoringAsciiCase(a[i], b[i])
  }

  /**
    `String.ToLowerInvariant`: the same text up to letter case, with no
    upper-case ASCII letter left.
   */
  function ToLowerInvariant(s: string): (r: string)
    ensures EqualsIgnoreAsciiCase(s, r)
    ensures forall i :: 0 <= i < |r| ==> !IsAsciiUpper(r[i])
  {
    seq(|s|, i requires 0 <= i < |s| => LowerChar(s[i]))
  }

  lemma LowerCharSame(x: char, y: char)
    ensures LowerChar(x) == LowerChar(y) <==> SameIgnoringAsciiCase(x, y)
  {
  }

  /** Two texts lower-case to the same text exactly when they are equal up to the case of ASCII letters. */
  lemma LowerEqualIffIgnoreCase(a: string, b: string)
    ensures ToLowerInvariant(a) == ToLowerInvariant(b) <==> EqualsIgnoreAsciiCase(a, b)
  {
    if |a| == |b| {
      forall i | 0 <= i < |a|
        ensures ToLowerInvariant(a)[i] == ToLowerInvariant(b)[i] <==> SameIgnoringAsciiCase(a[i], b[i])
      {
        LowerCharSame(a[i], b[i]);
      }
    }
  }

  /** How a verb is spelt on the command line. */
  function VerbName(v: Verb): string
  {
    match v
    case BuildDb => "build-db"
    case ExportScripts => "export-scripts"
    case UpdateDb => "update-db"
  }

  /**
    The `switch` on the lower-cased first argument (Program.cs:28-62): a
    verb exactly when the command is the spelling of one.
   */
  function ParseVerb(command: string): (r: Option<Verb>)
    ensures r.Some? ==> VerbName(r.value) == command
    ensures r.None? ==> forall v :: VerbName(v) != command
  {
    if command == "build-db" then Some(BuildDb)
    else if command == "export-scripts" then Some(ExportScripts)
    else if command == "update-db" then Some(UpdateDb)
    else None
  }

  /** Every verb is recognised by its own spelling. */
  lemma ParseVerbName(v: Verb)
    ensures ParseVerb(VerbName(v)) == Some(v)
  {
  }

  /** The verb the first argument names, if any. */
  function VerbOf(args: seq<string>): Option<Verb>
  {
    if |args| == 0 then None else ParseVerb(ToLowerInvariant(args[0]))
  }

  /** The flag looked up first for a verb. */
  function FirstFlag(v: Verb): string
  {
    match v
    case BuildDb => "--db-dir"
    case ExportScripts => "--connection-string"
    case UpdateDb => "--connection-string"
  }

  /** The flag looked up second for a verb. */
  function SecondFlag(v: Verb): string
  {
    match v
    case BuildDb => "--scripts-dir"
    case ExportScripts => "--output-dir"
    case UpdateDb => "--scripts-dir"
  }

  /** `UpdateDatabase` (Program.cs:134-141) is not implemented and always throws. */
  function UpdateDatabase(connectionString: string, scriptsDirectory: string): (outcome: HandlerOutcome)
    ensures outcome.Threw?
  {
    Threw("The method or operation is not implemented.")
  }

  /** The handler a verb calls. */
  function Handle(v: Verb, first: string, second: string,
                  buildDatabase: (string, string) -> HandlerOutcome,
                  exportScripts: (string, string) -> HandlerOutcome): HandlerOutcome
  {
    match v
    case BuildDb => buildDatabase(first, second)
    case ExportScripts => exportScripts(first, second)
    case UpdateDb => UpdateDatabase(first, second)
  }

  /**
    The exit code once a handler ran: 0 after a normal return, 1 when the
    handler ended the process itself, -1 when the exception reached the
    catch block of `Main`.
   */
  function ExitCode(outcome: HandlerOutcome): (code: int)
    ensures code == 0 <==> outcome.Completed?
    ensures code == 1 <==> outcome.ExitedWithFailure?
    ensures code == -1 <==> outcome.Threw?
  {
    match outcome
    case Completed => 0
    case ExitedWithFailure => 1
    case Threw(_) => -1
  }

  /**
    `Main`: usage and 1 without arguments; 1 for an unknown verb; -1 when a
    flag lookup throws; otherwise the handler runs with the looked-up
    values and its outcome decides the code.
   */
  function Main(args: seq<string>,
                buildDatabase: (string, string) -> HandlerOutcome,
                exportScripts: (string, string) -> HandlerOutcome): (r: MainResult)
    ensures r.exitCode == -1 || r.exitCode == 0 || r.exitCode == 1
    ensures VerbOf(args).None? ==> r == MainResult(1, None)
    ensures r.invoked.Some? <==>
      && VerbOf(args).Some?
      && GetArgValue(args, FirstFlag(VerbOf(args).value)).Ok?
      && GetArgValue(args, SecondFlag(VerbOf(args).value)).Ok?
    ensures VerbOf(args).Some? && r.invoked.None? ==> r.exitCode == -1
    ensures r.invoked.Some? ==>
      var call := r.invoked.value;
      && |args| > 0
      && ParseVerb(ToLowerInvariant(args[0])) == Some(call.verb)
      && GetArgValue(args, FirstFlag(call.verb)) == Ok(call.first)
      && GetArgValue(args, SecondFlag(call.verb)) == Ok(call.second)
      && r.exitCode == ExitCode(Handle(call.verb, call.first, call.second, buildDatabase, exportScripts))
    ensures r.exitCode == 0 ==> r.invoked.Some? && r.invoked.value.verb != UpdateDb
  {
    if |args| == 0 then MainResult(1, None)
    else
      match ParseVerb(ToLowerInvariant(args[0]))
      case None => MainResult(1, None)
      case Some(v) =>
        match GetArgValue(args, FirstFlag(v))
        case Err(_) => MainResult(-1, None)
        case Ok(first) =>
          match GetArgValue(args, SecondFlag(v))
          case Err(_) => MainResult(-1, None)
          case Ok(second) =>
            MainResult(ExitCode(Handle(v, first, second, buildDatabase, exportScripts)), Some(Invocation(v, first, second)))
  }

  /**
    A known verb whose two flags both have values calls its handler with
    those values, and the handler's outcome sets the exit code.
   */
  lemma MainDispatches(args: seq<string>, v: Verb, first: string, second: string,
                       buildDatabase: (string, string) -> HandlerOutcome,
                       exportScripts: (string, string) -> HandlerOutcome)
    requires |args| > 0 && ParseVerb(ToLowerInvariant(args[0])) == Some(v)
    requires GetArgValue(args, FirstFlag(v)) == Ok(first) && GetArgValue(args, SecondFlag(v)) == Ok(second)
    ensures Main(args, buildDatabase, exportScripts) == MainResult(ExitCode(Handle(v, first, second, buildDatabase, exportScripts)), Some(Invocation(v, first, second)))
  {
  }

  /** A flag given as the last argument has no value. */
  lemma GetArgValueFlagLast(args: seq<string>, name: string)
    requires |args| > 0 && args[|args| - 1] == name && name !in args[..|args| - 1]
    ensures GetArgValue(args, name) == Err(MissingParameter(name))
  {
    assert IndexOf(args, name) == |args| - 1;
  }

  /** A flag that does not occur has no value. */
  lemma GetArgValueAbsent(args: seq<string>, name: string)
    requires name !in args
    ensures GetArgValue(args, name) == Err(MissingParameter(name))
  {
  }

  /** The value after a flag is not checked: it may be the next flag. */
  lemma GetArgValueTakesNextFlag()
    ensures GetArgValue(["build-db", "--db-dir", "--scripts-dir", "scripts"], "--db-dir") == Ok("--scripts-dir")
  {
    var args := ["build-db", "--db-dir", "--scripts-dir", "scripts"];
    assert args[1] == "--db-dir" && "--db-dir" !in args[..1];
  }

  /** An unknown verb yields 1 and calls no handler. */
  lemma MainUnknownVerb(args: seq<string>, buildDatabase: (string, string) -> HandlerOutcome, exportScripts: (string, string) -> HandlerOutcome)
    requires |args| > 0 && ParseVerb(ToLowerInvariant(args[0])).None?
    ensures Main(args, buildDatabase, exportScripts) == MainResult(1, None)
  {
  }

  /** A missing flag of a known verb yields -1 and calls no handler. */
  lemma MainMissingParameter(args: seq<string>, buildDatabase: (string, string) -> HandlerOutcome, exportScripts: (string, string) -> HandlerOutcome)
    requires |args| > 0 && ParseVerb(ToLowerInvariant(args[0])).Some?
    requires var v := ParseVerb(ToLowerInvariant(args[0])).value;
      GetArgValue(args, FirstFlag(v)).Err? || GetArgValue(args, SecondFlag(v)).Err?
    ensures Main(args, buildDatabase, exportScripts) == MainResult(-1, None)
  {
  }

  /** `update-db` always ends with -1, whatever its arguments. */
  lemma MainUpdateAlwaysFails(args: seq<string>, buildDatabase: (string, string) -> HandlerOutcome, exportScripts: (string, string) -> HandlerOutcome)
    requires |args| > 0 && ToLowerInvariant(args[0]) == "update-db"
    ensures Main(args, buildDatabase, exportScripts).exitCode == -1
  {
  }

  /** A verb never equals a flag: lower-cased it starts with a letter, a flag with `-`. */
  lemma VerbIsNotFlag(arg: string, v: Verb)
    requires ParseVerb(ToLowerInvariant(arg)) == Some(v)
    ensures arg != FirstFlag(v) && arg != SecondFlag(v)
  {
    assert |arg| > 0 && ToLowerInvariant(arg)[0] != '-';
    assert LowerChar('-') == '-';
  }

  /** Looking up a flag other than the first argument does not depend on the first argument. */
  lemma GetArgValueIgnoresFirst(a: seq<string>, b: seq<string>, name: string)
    requires |a| > 0 && |b| > 0 && a[1..] == b[1..]
    requires a[0] != name && b[0] != name
    ensures GetArgValue(a, name) == GetArgValue(b, name)
  {
    assert a == [a[0]] + a[1..] && b == [b[0]] + b[1..];
    if IndexOf(a, name) >= 0 {
      assert IndexOf(a, name) == IndexOf(a[1..], name) + 1;
    }
  }

  /**
    The verb is matched without regard to case: two argument lists that
    differ only in the case of the verb end the same way.
   */
  lemma MainVerbCaseInsensitive(a: seq<string>, b: seq<string>, buildDatabase: (string, string) -> HandlerOutcome, exportScripts: (string, string) -> HandlerOutcome)
    requires |a| > 0 && |b| > 0 && a[1..] == b[1..]
    requires ToLowerInvariant(a[0]) == ToLowerInvariant(b[0])
    ensures Main(a, buildDatabase, exportScripts) == Main(b, buildDatabase, exportScripts)
  {
    var verb := ParseVerb(ToLowerInvariant(a[0]));
    if verb.Some? {
      VerbIsNotFlag(a[0], verb.value);
      VerbIsNotFlag(b[0], verb.value);
      GetArgValueIgnoresFirst(a, b, FirstFlag(verb.value));
      GetArgValueIgnoresFirst(a, b, SecondFlag(verb.value));
    }
  }
}
