/**
 * The command resolution loop of `bin/snooze.js`: it walks the argument
 * tokens left to right against the `flags` table with one token of
 * lookahead, running one action per step, until the tokens run out or a
 * fatal condition stops the process.
 */
module Resolution {
  import opened Wrappers
  import opened Grammar

  /** Why resolution stopped early. */
  datatype Halt =
    | UnknownFlag(token: string)                      // "Unknown flag : <token>"
    | UnsupportedParameter(flag: string, param: string) // "Flag <flag> doesn't support uknown parameter <param>"
    | MissingParameter(flag: string)                  // "Flag <flag> expects additional parameters."
    | NotAFunction(action: string)                    // `methods[method]()` on an unknown action name

  /** The actions that ran, in order, and what stopped resolution, if anything. */
  datatype Outcome = Outcome(fired: seq<string>, halt: Option<Halt>)

  /** What one iteration of the loop does: run an action and skip `consumed` tokens, or stop. */
  datatype Step = Fire(action: string, consumed: nat) | Stop(halt: Halt)

  /**
   * One iteration on the remaining tokens `args`: the flag is `args[0]`, the
   * lookahead `args[1]` when there is one. A lookahead that is a key of the
   * flag's `methods` (the literal `$end` included) is consumed with it;
   * otherwise the `$end` fallback runs and the lookahead is left for the
   * next iteration.
   */
  function StepAt(args: seq<string>, g: Table): (st: Step)
    requires args != []
    ensures st.Fire? ==> 1 <= st.consumed <= 2 && st.consumed <= |args|
    ensures st == Stop(UnknownFlag(args[0])) <==> FindFlag(g, args[0]).None?
    ensures st.Fire? && st.consumed == 2 ==>
      FindMethod(FindFlag(g, args[0]).value.methods, args[1]) == Some(st.action)
    ensures st.Fire? && st.consumed == 1 ==>
      (|args| > 1 ==> FindMethod(FindFlag(g, args[0]).value.methods, args[1]).None?) &&
      FindMethod(FindFlag(g, args[0]).value.methods, End) == Some(st.action)
    // conversely, a bound lookahead is always consumed with the flag ...
    ensures |args| > 1 && FindFlag(g, args[0]).Some? && FindMethod(FindFlag(g, args[0]).value.methods, args[1]).Some? ==>
      st == Fire(FindMethod(FindFlag(g, args[0]).value.methods, args[1]).value, 2)
    // ... and without one, a bound `$end` always runs alone
    ensures (FindFlag(g, args[0]).Some? && FindMethod(FindFlag(g, args[0]).value.methods, End).Some? &&
             (|args| > 1 ==> FindMethod(FindFlag(g, args[0]).value.methods, args[1]).None?)) ==>
      st == Fire(FindMethod(FindFlag(g, args[0]).value.methods, End).value, 1)
    // the two failures of a known flag: a lookahead it does not bind and no `$end` ...
    ensures |args| > 1 ==>
      (st == Stop(UnsupportedParameter(args[0], args[1])) <==>
        FindFlag(g, args[0]).Some? && FindMethod(FindFlag(g, args[0]).value.methods, args[1]).None? &&
        FindMethod(FindFlag(g, args[0]).value.methods, End).None?)
    // ... or no lookahead at all and no `$end`
    ensures |args| == 1 ==>
      (st == Stop(MissingParameter(args[0])) <==>
        FindFlag(g, args[0]).Some? && FindMethod(FindFlag(g, args[0]).value.methods, End).None?)
  {
    match FindFlag(g, args[0])
    case None => Stop(UnknownFlag(args[0]))
    case Some(e) =>
      if |args| > 1 then
        match FindMethod(e.methods, args[1])
        case Some(a) => Fire(a, 2)
        case None =>
          match FindMethod(e.methods, End)
          case Some(a) => Fire(a, 1)
          case None => Stop(UnsupportedParameter(args[0], args[1]))
      else
        match FindMethod(e.methods, End)
        case Some(a) => Fire(a, 1)
        case None => Stop(MissingParameter(args[0]))
  }

  /**
   * Resolution of the tokens `args` against table `g`, with `registry` the
   * names of the `methods` object. A step that stops leaves the actions
   * already run in place: the process exits after them.
   */
  function Resolve(args: seq<string>, g: Table, registry: set<string>): (o: Outcome)
    ensures forall a :: a in o.fired ==> a in registry
    ensures o.halt.Some? && o.halt.value.NotAFunction? ==> o.halt.value.action !in registry
    decreases |args|
  {
    if args == [] then Outcome([], None)
    else
      match StepAt(args, g)
      case Stop(h) => Outcome([], Some(h))
      case Fire(a, n) =>
        if a !in registry then Outcome([], Some(NotAFunction(a)))
        else
          var rest := Resolve(args[n..], g, registry);
          Outcome([a] + rest.fired, rest.halt)
  }

  /** `o` after the actions `fired` have already run. */
  function After(fired: seq<string>, o: Outcome): Outcome
  {
    Outcome(fired + o.fired, o.halt)
  }

  /**
   * The loop at lines 424-455, with `_fatal` (and the `TypeError` of calling
   * a missing action) ending it early.
   */
  method Dispatch(args: seq<string>, g: Table, registry: set<string>) returns (fired: seq<string>, halt: Option<Halt>)
    ensures Outcome(fired, halt) == Resolve(args, g, registry)
  {
    fired := [];
    var i := 0;
    while i < |args|
      invariant 0 <= i <= |args|
      invariant Resolve(args, g, registry) == After(fired, Resolve(args[i..], g, registry))
    {
      var flag := args[i];
      assert args[i..][0] == flag;
      var entry := FindFlag(g, flag);
      if entry.None? {
        return fired, Some(UnknownFlag(flag));
      }
      var k := i + 1;
      var action: string;
      var consumed: nat;
      if |args| > k {
        var stackVal := args[k];
        assert args[i..][1] == stackVal;
        var bound := FindMethod(entry.value.methods, stackVal);
        if bound.Some? {
          action, consumed := bound.value, 2;
        } else {
          var fallback := FindMethod(entry.value.methods, End);
          if fallback.None? {
            return fired, Some(UnsupportedParameter(flag, stackVal));
          }
          action, consumed := fallback.value, 1;
        }
      } else {
        var fallback := FindMethod(entry.value.methods, End);
        if fallback.None? {
          return fired, Some(MissingParameter(flag));
        }
        action, consumed := fallback.value, 1;
      }
      assert StepAt(args[i..], g) == Fire(action, consumed);
      if action !in registry {
        return fired, Some(NotAFunction(action));
      }
      assert args[i..][consumed..] == args[i + consumed..];
      fired := fired + [action];
      i := i + consumed;
    }
    halt := None;
  }

  /**
   * Each action consumes one or two tokens: at most as many actions run as
   * there are tokens, and a run that stops for no reason ran at least half
   * as many actions as there are tokens.
   */
  lemma {:induction false} TokenAccounting(args: seq<string>, g: Table, registry: set<string>)
    ensures |Resolve(args, g, registry).fired| <= |args|
    ensures Resolve(args, g, registry).halt.None? ==> |args| <= 2 * |Resolve(args, g, registry).fired|
    decreases |args|
  {
    if args != [] {
      var st := StepAt(args, g);
      if st.Fire? && st.action in registry {
        TokenAccounting(args[st.consumed..], g, registry);
      }
    }
  }

  /**
   * A run stopped by an unknown flag or an unsupported parameter never
   * looked past the offending token: tokens appended after it change
   * nothing.
   */
  lemma {:induction false} HaltIgnoresLaterTokens(args: seq<string>, more: seq<string>, g: Table, registry: set<string>)
    requires Resolve(args, g, registry).halt.Some?
    requires Resolve(args, g, registry).halt.value.UnknownFlag? || Resolve(args, g, registry).halt.value.UnsupportedParameter?
    ensures Resolve(args + more, g, registry) == Resolve(args, g, registry)
    decreases |args|
  {
    var all := args + more;
    assert all[0] == args[0];
    var st := StepAt(args, g);
    if |args| > 1 {
      assert all[1] == args[1];
      assert StepAt(all, g) == st;
    }
    if st.Fire? && st.action in registry {
      HaltIgnoresLaterTokens(args[st.consumed..], more, g, registry);
      assert all[st.consumed..] == args[st.consumed..] + more;
    }
  }

  /** A step that fires sees no more than the tokens it consumes. */
  lemma StepOnPrefix(args: seq<string>, g: Table, m: nat)
    requires args != [] && StepAt(args, g).Fire?
    requires StepAt(args, g).consumed <= m <= |args|
    ensures StepAt(args[..m], g) == StepAt(args, g)
  {
    assert args[..m][0] == args[0];
    if m > 1 {
      assert args[..m][1] == args[1];
    }
  }

  /**
   * The actions of any run, stopped or not, are exactly those of a
   * complete, error-free run on a prefix of its tokens: stopping discards
   * nothing that already ran and runs nothing more.
   */
  lemma {:induction false} HaltAfterPrefix(args: seq<string>, g: Table, registry: set<string>)
    ensures exists n ::
              0 <= n <= |args| && Resolve(args[..n], g, registry) == Outcome(Resolve(args, g, registry).fired, None)
    decreases |args|
  {
    if args == [] {
      assert args[..0] == [];
    } else {
      var st := StepAt(args, g);
      if st.Stop? || st.action !in registry {
        assert args[..0] == [];
      } else {
        var c := st.consumed;
        HaltAfterPrefix(args[c..], g, registry);
        var n' :| 0 <= n' <= |args[c..]| && Resolve(args[c..][..n'], g, registry) == Outcome(Resolve(args[c..], g, registry).fired, None);
        var n := c + n';
        StepOnPrefix(args, g, n);
        assert args[..n][c..] == args[c..][..n'];
        assert Resolve(args[..n], g, registry) == Outcome(Resolve(args, g, registry).fired, None);
      }
    }
  }

  /** A step on a well-formed table either fires an action of the registry or stops on an unknown flag. */
  lemma WellFormedStep(args: seq<string>, g: Table, registry: set<string>)
    requires WellFormed(g, registry) && args != []
    ensures StepAt(args, g).Fire? ==> StepAt(args, g).action in registry
    ensures StepAt(args, g).Stop? ==> StepAt(args, g).halt.UnknownFlag?
  {
    var found := FindFlag(g, args[0]);
    if found.Some? {
      var e := found.value;
      var i :| 0 <= i < |g| && g[i] == e;
      assert EntryWellFormed(e, registry);
      var st := StepAt(args, g);
      if st.Fire? {
        var key := if st.consumed == 2 then args[1] else End;
        assert (key, st.action) in e.methods;
        var j :| 0 <= j < |e.methods| && e.methods[j] == (key, st.action);
        assert e.methods[j].1 in registry;
      }
    }
  }

  /**
   * On a table where every flag has a `$end` fallback bound to an existing
   * action, the only way resolution can stop is an unknown flag.
   */
  lemma {:induction false} WellFormedHaltsOnlyOnUnknownFlag(args: seq<string>, g: Table, registry: set<string>)
    requires WellFormed(g, registry)
    ensures Resolve(args, g, registry).halt.None? || Resolve(args, g, registry).halt.value.UnknownFlag?
    decreases |args|
  {
    if args != [] {
      WellFormedStep(args, g, registry);
      var st := StepAt(args, g);
      if st.Fire? {
        WellFormedHaltsOnlyOnUnknownFlag(args[st.consumed..], g, registry);
      }
    }
  }

  /** The flag tokens of the shipped table, in declaration order; aliases such as `--routes` are not among them. */
  const FlagTokens: seq<string> := ["help", "-r", "-c", "-s", "-d", "-v", "api"]

  lemma ShippedFlagKeys()
    ensures |Flags| == |FlagTokens|
    ensures forall i :: 0 <= i < |Flags| ==> Flags[i].flag == FlagTokens[i]
  {
  }

  /** Every key of the shipped table finds its own entry; every other token finds none. */
  lemma ShippedFindFlag(t: string)
    ensures FindFlag(Flags, t).Some? <==> t in FlagTokens
    ensures forall i :: 0 <= i < |Flags| && Flags[i].flag == t ==> FindFlag(Flags, t) == Some(Flags[i])
  {
    ShippedFlagKeys();
    if i :| 0 <= i < |Flags| && Flags[i].flag == t {
      assert forall j :: 0 <= j < |FlagTokens| && j != i ==> FlagTokens[j] != FlagTokens[i];
      FindFlagAt(Flags, t, i);
    }
  }

  /** The sub-parameter tokens `-r` binds besides `$end`. */
  const RouteParams: seq<string> := ["get", "post", "put", "delete", "resource"]

  /** Each key of `-r` finds its own action; every other token finds none. */
  lemma ShippedRouteMethod(k: string)
    ensures FindMethod(RouteMethods, k).Some? <==> k in RouteParams || k == End
    ensures forall i :: 0 <= i < |RouteMethods| && RouteMethods[i].0 == k ==> FindMethod(RouteMethods, k) == Some(RouteMethods[i].1)
  {
    var r := RouteMethods;
    var keys := RouteParams + [End];
    assert forall i :: 0 <= i < |r| ==> r[i].0 == keys[i];
    if k in keys {
      var i :| 0 <= i < |keys| && keys[i] == k;
      assert r[i].0 == k;
    }
    if i :| 0 <= i < |r| && r[i].0 == k {
      assert forall j :: 0 <= j < |keys| && j != i ==> keys[j] != keys[i];
      FindMethodAt(r, k, i);
    }
  }

  /** A step that runs an action of the registry is followed by the resolution of the tokens it left. */
  lemma ResolveFired(args: seq<string>, g: Table, registry: set<string>, a: string, n: nat)
    requires args != [] && StepAt(args, g) == Fire(a, n) && a in registry
    ensures n <= |args|
    ensures Resolve(args, g, registry) == After([a], Resolve(args[n..], g, registry))
  {
  }

  /** The action `-r <k>` runs for each key `k` of the route flag. */
  function RouteAction(k: string): string
  {
    if k == End then "routes" else "routes." + k
  }

  /** Every key of the route flag binds its own route action. */
  lemma RouteMethodsBindRouteActions()
    ensures forall j :: 0 <= j < |RouteMethods| ==> RouteMethods[j].1 == RouteAction(RouteMethods[j].0)
    ensures forall k :: k in RouteParams || k == End <==> exists j :: 0 <= j < |RouteMethods| && RouteMethods[j].0 == k
  {
    var keys := RouteParams + [End];
    assert forall j :: 0 <= j < |RouteMethods| ==> RouteMethods[j].0 == keys[j];
    assert RouteAction("get") == "routes.get";
    assert RouteAction("post") == "routes.post";
    assert RouteAction("put") == "routes.put";
    assert RouteAction("delete") == "routes.delete";
    assert RouteAction("resource") == "routes.resource";
    forall k | k in RouteParams || k == End
      ensures exists j :: 0 <= j < |RouteMethods| && RouteMethods[j].0 == k
    {
      assert k in keys;
      var j :| 0 <= j < |keys| && keys[j] == k;
      assert RouteMethods[j].0 == k;
    }
  }

  lemma FindRoutesFlag()
    ensures FindFlag(Flags, "-r") == Some(RoutesFlag)
  {
    FindFlagAt(Flags, "-r", 1);
  }

  lemma RouteParamStep(args: seq<string>, i: nat)
    requires i < |RouteMethods| && |args| > 1 && args[0] == "-r" && args[1] == RouteMethods[i].0
    ensures StepAt(args, Flags) == Fire(RouteMethods[i].1, 2) && RouteMethods[i].1 in Actions
  {
    FindRoutesFlag();
    ShippedRouteMethod(args[1]);
    RoutesFlagWellFormed();
  }

  /**
   * With the shipped table, `-r` followed by one of its keys runs that
   * key's route action and consumes both tokens: `-r get` lists the GET
   * routes, `-r $end` all routes.
   */
  lemma ShippedRouteParam(i: nat, rest: seq<string>)
    requires i < |RouteMethods|
    ensures Resolve(["-r", RouteMethods[i].0] + rest, Flags, Actions) ==
      After([RouteAction(RouteMethods[i].0)], Resolve(rest, Flags, Actions))
  {
    var args := ["-r", RouteMethods[i].0] + rest;
    RouteParamStep(args, i);
    ResolveFired(args, Flags, Actions, RouteMethods[i].1, 2);
    assert args[2..] == rest;
    RouteMethodsBindRouteActions();
  }

  lemma RouteFallbackStep(args: seq<string>)
    requires args != [] && args[0] == "-r"
    requires |args| > 1 ==> args[1] !in RouteParams && args[1] != End
    ensures StepAt(args, Flags) == Fire("routes", 1) && "routes" in Actions
  {
    FindRoutesFlag();
    ShippedRouteMethod(End);
    RoutesFlagWellFormed();
    assert RouteMethods[5].1 in Actions;
    if |args| > 1 {
      ShippedRouteMethod(args[1]);
    }
  }

  /**
   * With the shipped table, `-r` followed by anything but one of its keys
   * lists all routes and leaves the next token to be read as a flag.
   */
  lemma ShippedRouteFallback(rest: seq<string>)
    requires rest != [] ==> rest[0] !in RouteParams && rest[0] != End
    ensures Resolve(["-r"] + rest, Flags, Actions) == After(["routes"], Resolve(rest, Flags, Actions))
  {
    var args := ["-r"] + rest;
    RouteFallbackStep(args);
    ResolveFired(args, Flags, Actions, "routes", 1);
    assert args[1..] == rest;
  }

  /** The action each flag's `$end` fallback runs, in table order. */
  const FallbackActions: seq<string> := ["help", "routes", "controllers", "services", "dtos", "validators", "api"]

  /** The `$end` fallback of every shipped flag other than `-r` is its only key. */
  lemma PlainFlagMethods(i: nat)
    requires i < |Flags| && i != 1
    ensures Flags[i].methods == [(End, FallbackActions[i])]
    ensures FallbackActions[i] in Actions
  {
  }

  lemma PlainFlagStep(args: seq<string>, i: nat)
    requires i < |Flags| && i != 1 && args != [] && args[0] == FlagTokens[i]
    ensures StepAt(args, Flags) == Fire(FallbackActions[i], if |args| > 1 && args[1] == End then 2 else 1)
    ensures FallbackActions[i] in Actions
  {
    ShippedFindFlag(args[0]);
    ShippedFlagKeys();
    var e := Flags[i];
    assert FindFlag(Flags, args[0]) == Some(e);
    PlainFlagMethods(i);
  }

  /**
   * With the shipped table, a flag other than `-r` runs its one action and
   * consumes only itself when the next token is not `$end`.
   */
  lemma ShippedPlainFlag(i: nat, rest: seq<string>)
    requires i < |Flags| && i != 1 && (rest != [] ==> rest[0] != End)
    ensures Resolve([FlagTokens[i]] + rest, Flags, Actions) == After([FallbackActions[i]], Resolve(rest, Flags, Actions))
  {
    var args := [FlagTokens[i]] + rest;
    PlainFlagStep(args, i);
    ResolveFired(args, Flags, Actions, FallbackActions[i], 1);
    assert args[1..] == rest;
  }

  /** A flag other than `-r` followed by the literal `$end` swallows it. */
  lemma ShippedPlainFlagEnd(i: nat, rest: seq<string>)
    requires i < |Flags| && i != 1
    ensures Resolve([FlagTokens[i], End] + rest, Flags, Actions) == After([FallbackActions[i]], Resolve(rest, Flags, Actions))
  {
    var args := [FlagTokens[i], End] + rest;
    PlainFlagStep(args, i);
    ResolveFired(args, Flags, Actions, FallbackActions[i], 2);
    assert args[2..] == rest;
  }

  /** A token outside the shipped table stops resolution before anything runs; aliases are not resolved. */
  lemma ShippedUnknownFlag(t: string, rest: seq<string>)
    requires t !in FlagTokens
    ensures Resolve([t] + rest, Flags, Actions) == Outcome([], Some(UnknownFlag(t)))
  {
    ShippedFindFlag(t);
    assert ([t] + rest)[0] == t;
  }

  /** The shipped table only ever stops on an unknown flag. */
  lemma ShippedHaltsOnlyOnUnknownFlag(args: seq<string>)
    ensures Resolve(args, Flags, Actions).halt.None? || Resolve(args, Flags, Actions).halt.value.UnknownFlag?
  {
    FlagsWellFormed();
    WellFormedHaltsOnlyOnUnknownFlag(args, Flags, Actions);
  }

  /** `-r bogus`: the routes are listed, then `bogus` is reported as an unknown flag. */
  lemma RoutesThenBogus()
    ensures Resolve(["-r", "bogus"], Flags, Actions) == Outcome(["routes"], Some(UnknownFlag("bogus")))
  {
    ShippedRouteFallback(["bogus"]);
    ShippedUnknownFlag("bogus", []);
    assert ["-r"] + ["bogus"] == ["-r", "bogus"];
    assert ["bogus"] + [] == ["bogus"];
  }

  /** `-c` alone: the controllers. */
  lemma ControllersAlone()
    ensures Resolve(["-c"], Flags, Actions) == Outcome(["controllers"], None)
  {
    ShippedPlainFlag(2, []);
    assert [FlagTokens[2]] + [] == ["-c"];
  }

  /** `-r -c`: the routes, then the controllers. */
  lemma RoutesThenControllers()
    ensures Resolve(["-r", "-c"], Flags, Actions) == Outcome(["routes", "controllers"], None)
  {
    ShippedRouteFallback(["-c"]);
    ControllersAlone();
    assert ["-r"] + ["-c"] == ["-r", "-c"];
  }

  /** `--routes`: the declared alias is an unknown flag. */
  lemma AliasIsUnknown()
    ensures Resolve(["--routes"], Flags, Actions) == Outcome([], Some(UnknownFlag("--routes")))
  {
    ShippedUnknownFlag("--routes", []);
    assert ["--routes"] + [] == ["--routes"];
  }

  /** `help` alone: the help page. */
  lemma HelpAlone()
    ensures Resolve(["help"], Flags, Actions) == Outcome(["help"], None)
  {
    ShippedPlainFlag(0, []);
    assert [FlagTokens[0]] + [] == ["help"];
  }

  /** `-r` alone: all routes. */
  lemma RoutesAlone()
    ensures Resolve(["-r"], Flags, Actions) == Outcome(["routes"], None)
  {
    ShippedRouteFallback([]);
    assert ["-r"] + [] == ["-r"];
  }

  /** `-r get`: the GET routes. */
  lemma RoutesGet()
    ensures Resolve(["-r", "get"], Flags, Actions) == Outcome(["routes.get"], None)
  {
    ShippedRouteParam(0, []);
    assert ["-r", RouteMethods[0].0] + [] == ["-r", "get"];
    assert RouteAction("get") == "routes.get";
  }
}
