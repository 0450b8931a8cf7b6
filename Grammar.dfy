/**
 * The command grammar: the `flags` table of the snooze command line, the
 * `methods` action registry it points into, the `flagHasMethod` lookup and
 * the text of the `help` action.
 */
module Grammar {
  import opened Wrappers
  import opened Text
  import opened Sorting

  /** The sub-parameter key a flag falls back to when no sub-parameter is given. */
  const End := "$end"

  /**
   * One `flags` entry. Its `methods` map sub-parameter tokens to action
   * names; a JavaScript object, so it is kept as key/value pairs in
   * declaration order. `aliases` are declared but never consulted.
   */
  datatype Entry = Entry(flag: string, methods: seq<(string, string)>, aliases: seq<string>, description: string)

  /** The `flags` table, in declaration order. */
  type Table = seq<Entry>

  /** `flags[token]`: the entry whose key is `token`, if any. */
  function FindFlag(g: Table, token: string): (r: Option<Entry>)
    ensures r.Some? ==> r.value in g && r.value.flag == token
    ensures r.None? ==> forall i :: 0 <= i < |g| ==> g[i].flag != token
  {
    if g == [] then None
    else if g[0].flag == token then Some(g[0])
    else FindFlag(g[1..], token)
  }

  /** `methods[key]`: the action bound to `key`, if any; `flagHasMethod` asks whether there is one. */
  function FindMethod(methods: seq<(string, string)>, key: string): (r: Option<string>)
    ensures r.Some? ==> (key, r.value) in methods
    ensures r.None? ==> forall i :: 0 <= i < |methods| ==> methods[i].0 != key
  {
    if methods == [] then None
    else if methods[0].0 == key then Some(methods[0].1)
    else FindMethod(methods[1..], key)
  }

  /** `flags[token]` is the first entry declared with that key. */
  lemma {:induction false} FindFlagAt(g: Table, token: string, i: nat)
    requires i < |g| && g[i].flag == token
    requires forall j :: 0 <= j < i ==> g[j].flag != token
    ensures FindFlag(g, token) == Some(g[i])
  {
    if i > 0 {
      FindFlagAt(g[1..], token, i - 1);
    }
  }

  /** `methods[key]` is the value of the first pair declared with that key. */
  lemma {:induction false} FindMethodAt(methods: seq<(string, string)>, key: string, i: nat)
    requires i < |methods| && methods[i].0 == key
    requires forall j :: 0 <= j < i ==> methods[j].0 != key
    ensures FindMethod(methods, key) == Some(methods[i].1)
  {
    if i > 0 {
      FindMethodAt(methods[1..], key, i - 1);
    }
  }

  /** The sub-parameters of `-r`: one per HTTP method, then the `$end` fallback. */
  const RouteMethods: seq<(string, string)> :=
    [("get", "routes.get"), ("post", "routes.post"), ("put", "routes.put"),
     ("delete", "routes.delete"), ("resource", "routes.resource"), (End, "routes")]

  const HelpFlag := Entry("help", [(End, "help")], ["-h", "--help"], "Display the command line help page.")
  const RoutesFlag := Entry("-r", RouteMethods, ["--routes"], "Lists the routes in the snooze application.")
  const ControllersFlag := Entry("-c", [(End, "controllers")], ["--controllers"],
    "Lists the controllers in the snooze application, their injectables, and routes that point to them.")
  const ServicesFlag := Entry("-s", [(End, "services")], ["--services"],
    "Lists the services in the snooze application and their injectables.")
  const DtosFlag := Entry("-d", [(End, "dtos")], ["--dtos"],
    "Lists the dtos in the snooze application, their injectables, and properties.")
  const ValidatorsFlag := Entry("-v", [(End, "validators")], ["--validators"],
    "Lists the validators in the snooze application and their injectables.")
  const ApiFlag := Entry("api", [(End, "api")], [], "Generates a [module].api.json API File in the api directory.")

  /** The shipped `flags` table, in declaration order (its `init` entry is commented out in the source). */
  const Flags: Table := [HelpFlag, RoutesFlag, ControllersFlag, ServicesFlag, DtosFlag, ValidatorsFlag, ApiFlag]

  /** The names of the `methods` object, the actions `runFlagMethod` can call. */
  const Actions: set<string> := {
    "controllers", "services", "validators", "dtos",
    "routes.get", "routes.post", "routes.put", "routes.delete", "routes.resource", "routes",
    "help", "api", "init", "init.helloworld"
  }

  /**
   * A table where every flag has an `$end` fallback and binds only actions
   * that exist in `registry`.
   */
  predicate WellFormed(g: Table, registry: set<string>)
  {
    forall i :: 0 <= i < |g| ==> EntryWellFormed(g[i], registry)
  }

  predicate EntryWellFormed(e: Entry, registry: set<string>)
  {
    FindMethod(e.methods, End).Some? &&
    forall j :: 0 <= j < |e.methods| ==> e.methods[j].1 in registry
  }

  /** A flag whose only key is `$end`, bound to an existing action. */
  lemma FallbackOnlyWellFormed(e: Entry, registry: set<string>)
    requires |e.methods| == 1 && e.methods[0].0 == End && e.methods[0].1 in registry
    ensures EntryWellFormed(e, registry)
  {
  }

  lemma RoutesFlagWellFormed()
    ensures EntryWellFormed(RoutesFlag, Actions)
  {
    var r := RouteMethods;
    assert FindMethod(r[5..], End) == Some("routes");
    assert FindMethod(r, End) == FindMethod(r[1..], End) == FindMethod(r[2..], End)
        == FindMethod(r[3..], End) == FindMethod(r[4..], End) == FindMethod(r[5..], End);
  }

  /** In the shipped table every flag has `$end` and every bound action is a key of `methods`. */
  lemma FlagsWellFormed()
    ensures WellFormed(Flags, Actions)
  {
    RoutesFlagWellFormed();
    FallbackOnlyWellFormed(HelpFlag, Actions);
    FallbackOnlyWellFormed(ControllersFlag, Actions);
    FallbackOnlyWellFormed(ServicesFlag, Actions);
    FallbackOnlyWellFormed(DtosFlag, Actions);
    FallbackOnlyWellFormed(ValidatorsFlag, Actions);
    FallbackOnlyWellFormed(ApiFlag, Actions);
  }

  function Keys(methods: seq<(string, string)>): (ks: seq<string>)
    ensures |ks| == |methods|
    ensures forall i :: 0 <= i < |methods| ==> ks[i] == methods[i].0
  {
    if methods == [] then [] else [methods[0].0] + Keys(methods[1..])
  }

  function NotEnd(k: string): bool { k != End }

  /** `_.without(Object.keys(parameters), $end)`. */
  function ParamKeys(methods: seq<(string, string)>): seq<string>
  {
    Filter(Keys(methods), NotEnd)
  }

  /** The help page lists a key of a flag exactly when it is bound and is not `$end`. */
  lemma ParamKeysSpec(methods: seq<(string, string)>, k: string)
    ensures k in ParamKeys(methods) <==> k != End && exists i :: 0 <= i < |methods| && methods[i].0 == k
  {
    FilterMembers(Keys(methods), NotEnd, k);
    if k in Keys(methods) {
      var i :| 0 <= i < |Keys(methods)| && Keys(methods)[i] == k;
      assert methods[i].0 == k;
    }
    if exists i :: 0 <= i < |methods| && methods[i].0 == k {
      var i :| 0 <= i < |methods| && methods[i].0 == k;
      assert Keys(methods)[i] == k;
    }
  }

  /** `paramStr`: the bracketed, comma-separated sub-parameters, or nothing when there are none. */
  function ParamStr(methods: seq<(string, string)>): string
  {
    var keys := ParamKeys(methods);
    if |keys| > 0 then " [" + Join(keys, ", ") + "]" else ""
  }

  /** The three lines `help` prints for one flag. */
  function FlagHelp(e: Entry): seq<string>
  {
    ["\tsnooze [module] " + e.flag + ParamStr(e.methods), "\t-" + e.description, ""]
  }

  /** The lines of the `help` action: a fixed header, then each flag in table order. */
  function HelpLines(g: Table): seq<string>
  {
    ["snooze Help Page", "", "=== Commands ===", ""] + Concat(g, FlagHelp)
  }

  lemma {:induction false} FlagHelpLength(g: Table)
    ensures |Concat(g, FlagHelp)| == 3 * |g|
  {
    if g != [] {
      FlagHelpLength(g[1..]);
    }
  }

  /** The help page has one three-line section per flag, the `i`-th flag's in the `i`-th place. */
  lemma HelpListsEveryFlag(g: Table, i: nat)
    requires i < |g|
    ensures |HelpLines(g)| == 4 + 3 * |g|
    ensures HelpLines(g)[4 + 3 * i] == "\tsnooze [module] " + g[i].flag + ParamStr(g[i].methods)
    ensures HelpLines(g)[5 + 3 * i] == "\t-" + g[i].description
    ensures HelpLines(g)[6 + 3 * i] == ""
  {
    FlagHelpLength(g);
    ConcatSplit(g, FlagHelp, i);
    FlagHelpLength(g[..i]);
    assert Concat(g, FlagHelp)[3 * i..3 * i + 3] == FlagHelp(g[i]);
  }

  /** A flag whose only key is `$end` advertises no sub-parameter. */
  lemma FallbackOnlyParamStr(e: Entry)
    requires |e.methods| == 1 && e.methods[0].0 == End
    ensures ParamStr(e.methods) == ""
  {
    assert Keys(e.methods) == [End];
    assert Filter([End], NotEnd) == [];
  }

  lemma RouteParamKeys()
    ensures ParamKeys(RouteMethods) == ["get", "post", "put", "delete", "resource"]
  {
    var keys := ["get", "post", "put", "delete", "resource", End];
    assert Keys(RouteMethods) == keys;
    assert Filter(keys[5..], NotEnd) == [];
    assert Filter(keys[4..], NotEnd) == ["resource"];
    assert Filter(keys[3..], NotEnd) == ["delete", "resource"];
    assert Filter(keys[2..], NotEnd) == ["put", "delete", "resource"];
    assert Filter(keys[1..], NotEnd) == ["post", "put", "delete", "resource"];
  }

  /** The route flag advertises its five sub-parameters. */
  lemma RouteParamStr()
    ensures ParamStr(RoutesFlag.methods) == " [get, post, put, delete, resource]"
  {
    RouteParamKeys();
    var ks := ["get", "post", "put", "delete", "resource"];
    JoinCons(ks[0], ks[1..], ", ");
    JoinCons(ks[1], ks[2..], ", ");
    JoinCons(ks[2], ks[3..], ", ");
    JoinCons(ks[3], ks[4..], ", ");
    assert [ks[3]] + ks[4..] == ks[3..];
    assert [ks[2]] + ks[3..] == ks[2..];
    assert [ks[1]] + ks[2..] == ks[1..];
    assert [ks[0]] + ks[1..] == ks;
  }

  /** Every other shipped flag advertises none. */
  lemma PlainParamStrs()
    ensures forall i :: 0 <= i < |Flags| && i != 1 ==> ParamStr(Flags[i].methods) == ""
  {
    FallbackOnlyParamStr(HelpFlag);
    FallbackOnlyParamStr(ControllersFlag);
    FallbackOnlyParamStr(ServicesFlag);
    FallbackOnlyParamStr(DtosFlag);
    FallbackOnlyParamStr(ValidatorsFlag);
    FallbackOnlyParamStr(ApiFlag);
  }
}
