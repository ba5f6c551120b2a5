/**
 * The command dispatch of the stable client: the first argument names one
 * of six commands, whose handler runs; a handler error is reported and
 * ends the process with status 1.
 */
module Cli {
  import opened Wrappers
  import opened Console

  datatype Command =
    | SignupCommand | SearchCommand | LoginCommand | SendCommand | ReceiveCommand | RequestsCommand

  /** The word that selects each command. */
  function Name(c: Command): string {
    match c
    case SignupCommand => "signup"
    case SearchCommand => "search"
    case LoginCommand => "login"
    case SendCommand => "send"
    case ReceiveCommand => "receive"
    case RequestsCommand => "requests"
  }

  /** Each command has its own word. */
  lemma NamesDistinct(a: Command, b: Command)
    ensures Name(a) == Name(b) ==> a == b
  {
    if Name(a) == Name(b) {
      assert Name(a)[0] == Name(b)[0];
      if Name(a)[0] == 's' {
        assert Name(a)[1] == Name(b)[1];
      } else if Name(a)[0] == 'r' {
        assert Name(a)[2] == Name(b)[2];
      }
    }
  }

  datatype Dispatch = ShowUsage | Run(command: Command) | Unrecognised(word: string)

  /**
   * What the arguments ask for: the usage text without a command word, the
   * named command, or the unknown-command error.
   */
  function Parse(args: seq<string>): (d: Dispatch)
    ensures d.ShowUsage? <==> |args| < 2
    ensures d.Run? ==> Name(d.command) == args[1]
    ensures d.Unrecognised? ==> d.word == args[1] && forall c :: Name(c) != args[1]
  {
    if |args| < 2 then ShowUsage
    else if args[1] == "signup" then Run(SignupCommand)
    else if args[1] == "search" then Run(SearchCommand)
    else if args[1] == "login" then Run(LoginCommand)
    else if args[1] == "send" then Run(SendCommand)
    else if args[1] == "receive" then Run(ReceiveCommand)
    else if args[1] == "requests" then Run(RequestsCommand)
    else Unrecognised(args[1])
  }

  /** A command's own word, after any program name and before any further arguments, selects it. */
  lemma ParseName(program: string, c: Command, rest: seq<string>)
    ensures Parse([program, Name(c)] + rest) == Run(c)
  {
    var args := [program, Name(c)] + rest;
    assert args[1] == Name(c);
    var d := Parse(args);
    if d.Run? {
      NamesDistinct(d.command, c);
    }
  }

  /** The heading of a handler's error report. */
  function FailureHeading(c: Command): string {
    match c
    case SignupCommand => "Signup failed"
    case SearchCommand => "Search failed"
    case LoginCommand => "Login failed"
    case SendCommand => "Message failed"
    case ReceiveCommand => "Message failed"
    case RequestsCommand => "Requests failed"
  }

  /** The line printed after a handler returns without error. */
  function DoneLine(c: Command): string {
    match c
    case SignupCommand => "Signup completed successfully!"
    case SearchCommand => "Search completed successfully!"
    case LoginCommand => "Login completed successfully!"
    case SendCommand => "Message sent successfully!"
    case ReceiveCommand => "Message received successfully!"
    case RequestsCommand => "Requests received successfully!"
  }

  /**
   * Every success line names its command, but an error report of send
   * cannot be told apart from one of receive.
   */
  lemma ReportsOfSendAndReceive(a: Command, b: Command)
    ensures DoneLine(a) == DoneLine(b) ==> a == b
    ensures FailureHeading(SendCommand) == FailureHeading(ReceiveCommand)
    ensures FailureHeading(a) == FailureHeading(b) && a != b ==>
      (a == SendCommand && b == ReceiveCommand) || (a == ReceiveCommand && b == SendCommand)
  {
    if DoneLine(a) == DoneLine(b) {
      assert DoneLine(a)[0] == DoneLine(b)[0];
      assert DoneLine(a)[9] == DoneLine(b)[9];
      assert DoneLine(a)[1] == DoneLine(b)[1];
    }
    if FailureHeading(a) == FailureHeading(b) {
      assert FailureHeading(a)[0] == FailureHeading(b)[0];
      assert FailureHeading(a)[1] == FailureHeading(b)[1];
    }
  }

  /**
   * main: the handler named by the arguments runs, and `failed` is the
   * error it returned. The result names the handler that ran, if any.
   */
  function Main(w: World, args: seq<string>, failed: bool): (res: (Option<Command>, World))
    ensures Grows(w, res.1)
  {
    match Parse(args)
    case ShowUsage =>
      Did(w, w.Say(CommandList), Say(CommandList));
      (None, w.Say(CommandList))
    case Unrecognised(word) =>
      Did(w, w.Say(UnknownCommand(word)), Say(UnknownCommand(word)));
      (None, w.Say(UnknownCommand(word)))
    case Run(c) =>
      if failed then
        FailWith(w, CommandFailed(FailureHeading(c)));
        (Some(c), w.Say(CommandFailed(FailureHeading(c))).Exit(1))
      else
        Did(w, w.Say(CommandDone(DoneLine(c))), Say(CommandDone(DoneLine(c))));
        (Some(c), w.Say(CommandDone(DoneLine(c))))
  }

  /**
   * A handler runs exactly when the first argument is its word, and no
   * other handler runs then; without a command word or with an unknown one
   * none runs.
   */
  lemma MainRunsTheNamedHandler(w: World, args: seq<string>, failed: bool, c: Command)
    ensures Main(w, args, failed).0 == Some(c) <==> |args| >= 2 && args[1] == Name(c)
    ensures Main(w, args, failed).0 == None <==> |args| < 2 || forall d :: Name(d) != args[1]
  {
    var d := Parse(args);
    if d.Run? {
      NamesDistinct(d.command, c);
    }
  }

  /**
   * Only a handler error exits, with status 1 after its report; the usage
   * text, an unknown command and a success print one line and return.
   */
  lemma MainExits(w: World, args: seq<string>, failed: bool)
    ensures Calls(Since(w, Main(w, args, failed).1)) == []
    ensures Exits(Since(w, Main(w, args, failed).1)) == if Parse(args).Run? && failed then [1] else []
    ensures Parse(args).ShowUsage? ==> Since(w, Main(w, args, failed).1) == [Say(CommandList)]
    ensures Parse(args).Unrecognised? ==> Since(w, Main(w, args, failed).1) == [Say(UnknownCommand(args[1]))]
  {
    match Parse(args)
    case ShowUsage =>
      Did(w, w.Say(CommandList), Say(CommandList));
      Single(Say(CommandList));
    case Unrecognised(word) =>
      Did(w, w.Say(UnknownCommand(word)), Say(UnknownCommand(word)));
      Single(Say(UnknownCommand(word)));
    case Run(c) =>
      if failed {
        FailWith(w, CommandFailed(FailureHeading(c)));
      } else {
        GoOnWith(w, CommandDone(DoneLine(c)));
      }
  }

  /** main over the console. */
  method RunMain(con: Console, args: seq<string>, failed: bool) returns (ran: Option<Command>)
    modifies con
    ensures (ran, con.State()) == Main(old(con.State()), args, failed)
  {
    var d := Parse(args);
    match d
    case ShowUsage =>
      con.Say(CommandList);
      ran := None;
    case Unrecognised(word) =>
      con.Say(UnknownCommand(word));
      ran := None;
    case Run(c) =>
      if failed {
        con.Say(CommandFailed(FailureHeading(c)));
        con.Exit(1);
      } else {
        con.Say(CommandDone(DoneLine(c)));
      }
      ran := Some(c);
  }
}
