/**
 * The entry point of `bin/snooze.js`: the `main.js` and module gates, the
 * default `help` argument, the resolution loop, and what each action does
 * to the outside world. The process's effects are returned as data, in
 * order, together with its exit code.
 */
module Cli {
  import opened Wrappers
  import opened Descriptors
  import opened Reports
  import opened Manifest
  import opened Grammar
  import opened Resolution

  /** One observable effect of an action. */
  datatype Effect =
    | Print(lines: seq<string>)              // console.log, one element per call
    | WriteManifest(path: string, api: Api)  // fs.writeFileSync of the JSON manifest
    | Bootstrap(action: string)              // the project scaffolding actions

  /** Why the process ended with `_fatal`. */
  datatype Fatal = NoMainFile | Usage | NoSuchModule(name: string) | Halted(halt: Halt)

  /** The line `_fatal` prints for each failure. */
  function Message(f: Fatal): string
  {
    match f
    case NoMainFile => "Unable to find server's main.js file in the current directory."
    case Usage => "Use: snooze [module] help"
    case NoSuchModule(name) => "Module " + name + " doesn't exist"
    case Halted(UnknownFlag(token)) => "Unknown flag : " + token
    case Halted(UnsupportedParameter(flag, param)) => "Flag " + flag + " doesn't support uknown parameter " + param
    case Halted(MissingParameter(flag)) => "Flag " + flag + " expects additional parameters."
    // Node reports this uncaught TypeError on standard error with a stack
    // trace, not through `console.log`; the shipped table never reaches it
    // (`ShippedHaltsOnlyOnUnknownFlag`), so only its first line is recorded.
    case Halted(NotAFunction(_)) => "TypeError: methods[method] is not a function"
  }

  /** The effects of one run and the code it exits with. */
  datatype Exit = Exit(effects: seq<Effect>, code: int)

  /** The route actions: each lists the routes of one HTTP method. */
  const RouteFilters: set<string> := {"routes.get", "routes.post", "routes.put", "routes.delete", "routes.resource"}

  /** One entry of the `methods` object, run against module `m` named `modname`. */
  function Perform(action: string, modname: string, m: Module): (e: Effect)
    requires action in Actions
    ensures e.Bootstrap? <==> action == "init" || action == "init.helloworld"
    ensures e.Bootstrap? ==> e.action == action
    ensures e.WriteManifest? <==> action == "api"
    ensures e.WriteManifest? ==> e.path == ManifestPath(modname) && e.api == ApiOf(modname, m)
    ensures action == "help" ==> e == Print(HelpLines(Flags))
    ensures action == "routes" ==> e == Print(PrintRoutes(m.routes, None))
    ensures action in RouteFilters ==> e == Print(PrintRoutes(RoutesOf(m, Some(action[|"routes."|..])), None))
    ensures action == "controllers" ==> e == Print(ControllersReport(m.controllers, m))
    ensures action == "services" ==> e == Print(ServicesReport(m.services, m))
    ensures action == "validators" ==> e == Print(ValidatorsReport(m.validators))
    ensures action == "dtos" ==> e == Print(DtosReport(m.dtos))
  {
    if action in RouteFilters then Print(PrintRoutes(RoutesOf(m, Some(action[|"routes."|..])), None))
    else if action == "routes" then Print(PrintRoutes(RoutesOf(m, None), None))
    else if action == "controllers" then Print(ControllersReport(m.controllers, m))
    else if action == "services" then Print(ServicesReport(m.services, m))
    else if action == "validators" then Print(ValidatorsReport(m.validators))
    else if action == "dtos" then Print(DtosReport(m.dtos))
    else if action == "help" then Print(HelpLines(Flags))
    else if action == "api" then WriteManifest(ManifestPath(modname), ApiOf(modname, m))
    else Bootstrap(action)
  }

  /** The effects of the actions that ran, in the order they ran. */
  function Effects(fired: seq<string>, modname: string, m: Module): (es: seq<Effect>)
    requires forall a :: a in fired ==> a in Actions
    ensures |es| == |fired|
    ensures forall i :: 0 <= i < |fired| ==> es[i] == Perform(fired[i], modname, m)
  {
    if fired == [] then [] else [Perform(fired[0], modname, m)] + Effects(fired[1..], modname, m)
  }

  /** The arguments after the module name, `help` when there are none. */
  function CommandArgs(argv: seq<string>): (args: seq<string>)
    requires argv != []
    ensures args != []
    ensures |argv| > 1 ==> args == argv[1..]
    ensures |argv| == 1 ==> args == ["help"]
  {
    if |argv| > 1 then argv[1..] else ["help"]
  }

  /**
   * A run of `snooze <argv>`: `mainExists` says whether `./main.js`
   * exists, `argv` holds the words after the program name (the module
   * name first), and `host` the modules the loaded application
   * registered, by name.
   */
  function Snooze(mainExists: bool, argv: seq<string>, host: map<string, Module>): (x: Exit)
    ensures x.code == 0 || x.code == 1
    ensures x.code == 0 ==>
      mainExists && argv != [] && argv[0] in host && Resolve(CommandArgs(argv), Flags, Actions).halt.None?
    ensures x.code == 1 ==> x.effects != [] && exists f :: x.effects[|x.effects| - 1] == Print([Message(f)])
    ensures !mainExists || argv == [] || argv[0] !in host ==> |x.effects| == 1
  {
    if !mainExists then Exit([Print([Message(NoMainFile)])], 1)
    else if argv == [] then Exit([Print([Message(Usage)])], 1)
    else if argv[0] !in host then Exit([Print([Message(NoSuchModule(argv[0]))])], 1)
    else
      var o := Resolve(CommandArgs(argv), Flags, Actions);
      var ran := Effects(o.fired, argv[0], host[argv[0]]);
      match o.halt
      case None => Exit(ran, 0)
      case Some(h) => Exit(ran + [Print([Message(Halted(h))])], 1)
  }

  /**
   * The process exits with 0 exactly when `main.js` exists, the module is
   * registered and resolution ran to the end; it exits with 1 otherwise.
   */
  lemma ExitCode(mainExists: bool, argv: seq<string>, host: map<string, Module>)
    ensures Snooze(mainExists, argv, host).code in {0, 1}
    ensures Snooze(mainExists, argv, host).code == 0 <==>
      mainExists && argv != [] && argv[0] in host && Resolve(CommandArgs(argv), Flags, Actions).halt.None?
  {
  }

  /**
   * Without `main.js`, without a module name, or with a module the
   * application did not register, nothing runs: the one effect is the
   * fatal message.
   */
  lemma ModuleGate(mainExists: bool, argv: seq<string>, host: map<string, Module>)
    requires !mainExists || argv == [] || argv[0] !in host
    ensures Snooze(mainExists, argv, host) == Exit([Print([Message(
      if !mainExists then NoMainFile else if argv == [] then Usage else NoSuchModule(argv[0]))])], 1)
  {
  }

  /**
   * The effects of a run are the effects of the actions it resolved, in
   * order, followed by the fatal message when resolution stopped early.
   */
  lemma RunEffects(argv: seq<string>, host: map<string, Module>)
    requires argv != [] && argv[0] in host
    ensures var o := Resolve(CommandArgs(argv), Flags, Actions);
      var x := Snooze(true, argv, host);
      |x.effects| == |o.fired| + (if o.halt.Some? then 1 else 0) &&
      (forall i :: 0 <= i < |o.fired| ==> x.effects[i] == Perform(o.fired[i], argv[0], host[argv[0]])) &&
      (o.halt.Some? ==> x.effects[|o.fired|] == Print([Message(Halted(o.halt.value))]))
  {
  }

  /** With the shipped table the only fatal message resolution can produce is an unknown flag. */
  lemma ShippedFailuresAreUnknownFlags(argv: seq<string>, host: map<string, Module>)
    requires argv != [] && argv[0] in host && Snooze(true, argv, host).code == 1
    ensures exists t :: Snooze(true, argv, host).effects[|Snooze(true, argv, host).effects| - 1] == Print(["Unknown flag : " + t])
  {
    var o := Resolve(CommandArgs(argv), Flags, Actions);
    ShippedHaltsOnlyOnUnknownFlag(CommandArgs(argv));
    var t := o.halt.value.token;
    assert Snooze(true, argv, host).effects[|o.fired|] == Print(["Unknown flag : " + t]);
  }

  /** A run whose resolution completes performs exactly the resolved actions and exits with 0. */
  lemma CompletedRun(argv: seq<string>, host: map<string, Module>, fired: seq<string>)
    requires argv != [] && argv[0] in host && Resolve(CommandArgs(argv), Flags, Actions) == Outcome(fired, None)
    ensures Snooze(true, argv, host) == Exit(Effects(fired, argv[0], host[argv[0]]), 0)
  {
  }

  /** `snooze <module>` with no further argument prints the help page and succeeds. */
  lemma NoArgumentsShowsHelp(modname: string, host: map<string, Module>)
    requires modname in host
    ensures Snooze(true, [modname], host) == Exit([Print(HelpLines(Flags))], 0)
  {
    HelpAlone();
    CompletedRun([modname], host, ["help"]);
  }

  /** `snooze <module> -r` prints every route of the module and succeeds. */
  lemma BareRoutesListsAllRoutes(modname: string, host: map<string, Module>)
    requires modname in host
    ensures Snooze(true, [modname, "-r"], host) == Exit([Print(PrintRoutes(host[modname].routes, None))], 0)
  {
    RoutesAlone();
    assert [modname, "-r"][1..] == ["-r"];
    CompletedRun([modname, "-r"], host, ["routes"]);
  }

  /** `snooze <module> -r get` prints only the module's GET routes and succeeds. */
  lemma RoutesGetListsGetRoutes(modname: string, host: map<string, Module>)
    requires modname in host
    ensures Snooze(true, [modname, "-r", "get"], host) ==
      Exit([Print(PrintRoutes(RoutesOf(host[modname], Some("get")), None))], 0)
  {
    RoutesGet();
    assert [modname, "-r", "get"][1..] == ["-r", "get"];
    CompletedRun([modname, "-r", "get"], host, ["routes.get"]);
    assert "routes.get"[|"routes."|..] == "get";
  }

  /**
   * `snooze <module> <flag>` for any shipped flag other than `-r` runs
   * that flag's one action and succeeds: `-c`, `-s`, `-v` and `-d` print
   * their reports, `api` writes the manifest and `help` prints the page.
   */
  lemma PlainFlagRun(modname: string, host: map<string, Module>, i: nat)
    requires modname in host && i < |Flags| && i != 1
    ensures FallbackActions[i] in Actions
    ensures Snooze(true, [modname, FlagTokens[i]], host) == Exit([Perform(FallbackActions[i], modname, host[modname])], 0)
  {
    ShippedPlainFlag(i, []);
    assert [FlagTokens[i]] + [] == [FlagTokens[i]];
    assert [modname, FlagTokens[i]][1..] == [FlagTokens[i]];
    PlainFlagMethods(i);
    CompletedRun([modname, FlagTokens[i]], host, [FallbackActions[i]]);
  }
}
