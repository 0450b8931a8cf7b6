# snooze-cli, modelled in Dafny

`snooze` is the command-line companion of the snooze web framework. It is run as
`snooze <module> [flag [parameter]] ...` in a directory that holds the application's
`main.js`. It loads the application, checks that the named module is registered, and
then reads its arguments left to right against a fixed table of flags. Each flag runs
one action that prints a report about the module or writes its API manifest:

- `-r [get|post|put|delete|resource]` prints the routes;
- `-c`, `-s`, `-v` and `-d` print the controllers, services, validators and DTOs;
- `api` writes the manifest;
- `help` prints the help page.

The first error ends the process. Every action before it has already run.

This project models that core and proves what it does:

| file | module | what it holds |
|---|---|---|
| `Wrappers.dfy` | `Wrappers` | `Option` |
| `Text.dfy` | `Text` | upper-casing, the string order `_.sortBy` compares names and methods with, `join` |
| `Sorting.dfy` | `Sorting` | `Filter`, `Concat`, and `_.sortBy` as a stable insertion sort. It is proved equal to any stable sort, and the stable sort is proved unique. |
| `Descriptors.dfy` | `Descriptors` | routes, components (controllers, services, validators), DTOs and their `__json` properties, one module's collections |
| `Reports.dfy` | `Reports` | `printRoutes`, `printControllers`, `printServices`, `printValidators`, `printDTOs` as the lines they log, without colours |
| `Manifest.dfy` | `Manifest` | the record the `api` action serialises, and the push loops that build it |
| `Grammar.dfy` | `Grammar` | the `flags` table, `flagHasMethod`'s lookup, the action registry, the help page |
| `Resolution.dfy` | `Resolution` | the resolution loop as a specification function (`Resolve`) and as the loop itself (`Dispatch`), with the lemmas about halting and token consumption |
| `Cli.dfy` | `Cli` | the `main.js` and module gates, the default `help` argument, the effect of each action, and the exit code |

JavaScript objects whose key order is observable are kept as association lists in
the order `for…in` and `Object.keys` enumerate them. This covers the `flags` table, each
flag's `methods`, and a DTO's `__json`. No key of the shipped `flags` table or of its
`methods` looks like an integer, so for them this is declaration order. A lookup
returns the first pair with the key. The shipped table's keys are distinct, so this
is the pair JavaScript finds.

Some behaviour of the code is easy to misread:

- `-r bogus` prints all routes through the `$end` fallback. It then stops with
  `Unknown flag : bogus`, not with the "doesn't support uknown parameter" error.
- A failure stops the run after a prefix: the actions before it have already printed.
- `printServices` prints services in accessor order. The sorted copy of its argument is
  overwritten by the re-declaration at `bin/snooze.js:98`.
- `_fatal` writes its message with `console.log`, that is to standard output. The model
  records it as the last `Print` effect, followed by exit code 1.

## Model

| member | source | states |
|---|---|---|
| Text.ToUpper | bin/snooze.js:20 | the method is upper-cased character by character and keeps its length |
| Sorting.SortByIsStableSort | bin/snooze.js:15-17 | `_.sortBy` returns its input ordered by key, and within each key the elements keep their input order; it is a permutation of the input |
| Sorting.StableSortUnique | bin/snooze.js:15-17 | two sequences that are both stable sorts of the same input by the same key are equal, so a stable sort fixes the report completely |
| Sorting.StableSortIsSortBy | bin/snooze.js:51-53 | any stable sort of the input by name is what `_.sortBy` returns |
| Reports.EmitRoutes | bin/snooze.js:19-47 | the loop logs one line per route whose method has a `switch` case, in order, and nothing for any other method |
| Reports.PrintRoutesSpec | bin/snooze.js:14-47 | the routes report is, line by line, the known-method routes stably sorted by method, each formatted as upper-cased method, ` => `, path, behind a non-empty `prepend` |
| Reports.KnownGroups | bin/snooze.js:30-46 | among the routes shown, those of a known method are all of that method's routes in input order; a method without a `switch` case shows none |
| Reports.InjectableLines | bin/snooze.js:77-89 | `@Services` and its tab-indented list appear exactly when there are services, then `@DTOs` and its list exactly when there are DTOs, each item at its position |
| Reports.CollectControllerRoutes | bin/snooze.js:62-70 | the push loop collects exactly the routes whose controller equals the controller's name, in route-collection order |
| Reports.OwnedRoutesExist | bin/snooze.js:66-72 | the controller has routes to list exactly when some route names it |
| Reports.ControllerBlockSpec | bin/snooze.js:59-89 | a controller's block opens with its name; `@Routes` follows exactly when some route names the controller, and the lines after it are the routes report of exactly those routes with a tab prefix |
| Reports.ControllersReportSpec | bin/snooze.js:50-59 | the controllers report is the controller blocks in stable name order, joined against the module's routes |
| Reports.ServicesReportAccessorOrder | bin/snooze.js:93-101 | the services report is the blocks of the module's services in accessor order, whatever the argument, each block at its position |
| Reports.ServicesReportUnsorted | bin/snooze.js:94-98 | services `b`, `a` print as `b`, `a`, though sorting them by name would give `a`, `b` |
| Reports.ValidatorsReportSpec | bin/snooze.js:123-151 | the validators report is the validator blocks in stable name order |
| Reports.PropertyLinesSpec | bin/snooze.js:179-193 | a property prints `Type:`, `Default:`, `Description:` or `Example:` with a value exactly when that field is defined with that value |
| Reports.EntryListsKey | bin/snooze.js:174-178 | a `__json` entry prints the key line for `k` exactly when its key is `k` and `k` is not `__methods` |
| Reports.FieldLinesSpec | bin/snooze.js:174-195 | a DTO lists a key exactly when that key is in its `__json` and is not `__methods` |
| Reports.DtosReportAccessorOrder | bin/snooze.js:153-154 | the DTO report is the DTO blocks in accessor order, unsorted, each block at its position |
| Manifest.RouteEntries | bin/snooze.js:289-299 | `api.routes` has one entry per route, in order, each the projection (method, path, response, request) of its route |
| Manifest.DtoEntries | bin/snooze.js:301-310 | `api.dtos` has one entry per DTO, in order, each the projection (name, properties, strict) of its DTO |
| Manifest.BuildApi | bin/snooze.js:279-310 | the two push loops produce the manifest: `module` is the module name; `modules`, `services`, `controllers` and `validators` stay empty; routes and DTOs are their one-to-one, order-preserving projections |
| Grammar.FindFlag | bin/snooze.js:427 | `flags[token]` finds an entry with that key when there is one, and none only when no entry has it |
| Grammar.FindMethod | bin/snooze.js:394-399 | `flagHasMethod` holds exactly when the key is bound, and `runFlagMethod` runs the action bound to it |
| Grammar.FindFlagAt | bin/snooze.js:427 | the lookup returns the first entry declared with the key |
| Grammar.FlagsWellFormed | bin/snooze.js:325-386 | every shipped flag has an `$end` fallback, and every action it binds is a name in `methods` |
| Grammar.ParamKeysSpec | bin/snooze.js:259-262 | the help page lists a key of a flag exactly when it is bound and is not `$end` |
| Grammar.HelpListsEveryFlag | bin/snooze.js:248-273 | the help page is a four-line header followed by three lines per flag in table order: usage with parameters, description, blank |
| Grammar.RouteParamStr | bin/snooze.js:259-266 | `-r` advertises ` [get, post, put, delete, resource]` |
| Grammar.PlainParamStrs | bin/snooze.js:264-266 | every other shipped flag advertises no parameter |
| Resolution.StepAt | bin/snooze.js:424-454 | one iteration consumes the flag and its lookahead exactly when the flag binds the lookahead, and otherwise consumes only the flag and runs the `$end` fallback when it is bound; it stops on an unknown flag exactly when the token is not a key, with "doesn't support uknown parameter" exactly when a known flag binds neither the lookahead nor `$end`, and with "expects additional parameters" exactly when a last-token flag has no `$end` |
| Resolution.Resolve | bin/snooze.js:424-455 | the actions run are all names in `methods`, and a missing action is reported only for a name that is not one |
| Resolution.Dispatch | bin/snooze.js:424-455 | the loop, with its index bumped inside the body and `_fatal` leaving early, runs exactly the actions `Resolve` gives and stops with the same error |
| Resolution.TokenAccounting | bin/snooze.js:432-449 | each action consumes one or two tokens: no more actions than tokens, and a complete run runs at least half as many actions as there are tokens |
| Resolution.HaltIgnoresLaterTokens | bin/snooze.js:452-454 | a run stopped by an unknown flag or unsupported parameter examines no later token: appending tokens changes nothing |
| Resolution.HaltAfterPrefix | bin/snooze.js:9-12 | the actions of any run, stopped or not, are those of a complete run on a prefix of its tokens |
| Resolution.WellFormedHaltsOnlyOnUnknownFlag | bin/snooze.js:441-448 | on a table whose every flag has `$end` bound to an existing action, the only possible failure is an unknown flag |
| Resolution.ShippedHaltsOnlyOnUnknownFlag | bin/snooze.js:325-386 | with the shipped table, "doesn't support uknown parameter", "expects additional parameters" and a missing action are unreachable |
| Resolution.ShippedFindFlag | bin/snooze.js:325-386 | the shipped keys are `help`, `-r`, `-c`, `-s`, `-d`, `-v`, `api`, each finding its own entry |
| Resolution.ShippedRouteMethod | bin/snooze.js:333-341 | `-r` binds exactly `get`, `post`, `put`, `delete`, `resource` and `$end` |
| Resolution.RouteMethodsBindRouteActions | bin/snooze.js:333-341 | each key `k` of `-r` binds `routes.k`, and `$end` binds `routes` |
| Resolution.ShippedRouteParam | bin/snooze.js:432-436 | `-r` followed by one of its keys runs that key's action and consumes both tokens |
| Resolution.ShippedRouteFallback | bin/snooze.js:437-440 | `-r` followed by any other token runs `routes` and leaves the token to be read as the next flag |
| Resolution.ShippedPlainFlag | bin/snooze.js:444-446 | any other flag runs its single action and consumes only itself |
| Resolution.ShippedPlainFlagEnd | bin/snooze.js:394-396 | a flag followed by the literal `$end` consumes both tokens |
| Resolution.ShippedUnknownFlag | bin/snooze.js:452-454 | a token that is not a key stops the run before any further action |
| Resolution.RoutesThenControllers | bin/snooze.js:437-446 | `-r -c` runs `routes`, then `controllers` |
| Resolution.RoutesThenBogus | bin/snooze.js:437-454 | `-r bogus` runs `routes`, then stops with `Unknown flag : bogus` |
| Resolution.AliasIsUnknown | bin/snooze.js:342 | the declared alias `--routes` is an unknown flag |
| Resolution.HelpAlone | bin/snooze.js:418-420 | `help` alone runs exactly `help` |
| Resolution.RoutesGet | bin/snooze.js:333-336 | `-r get` runs exactly `routes.get` |
| Cli.Perform | bin/snooze.js:217-322 | each entry of `methods` has its effect: `help` prints the help page, `routes` the routes report of all routes, `routes.<m>` that of `getRoutes(m)`, `controllers`, `services`, `validators` and `dtos` their reports; `api` alone writes a file, the manifest of the module to `api/<module>.api.json`; `init` and `init.helloworld` alone bootstrap a project |
| Cli.Snooze | bin/snooze.js:406-470 | the process exits with 0 or 1; 0 only when `main.js` exists, the module is registered and resolution ran to the end; on 1 the last effect is one fatal message; a failed gate has that message as its only effect |
| Cli.Effects | bin/snooze.js:217-322 | the run's effects are one per action that ran, in order, each what that entry of `methods` does |
| Cli.CommandArgs | bin/snooze.js:418-420 | the arguments after the module name are used as given, and `help` when there are none |
| Cli.ExitCode | bin/snooze.js:406-470 | the exit code is 0 exactly when `main.js` exists, the module is registered and resolution ran to the end, and 1 otherwise |
| Cli.ModuleGate | bin/snooze.js:461-470 | without `main.js`, without a module name, or with an unregistered module, nothing runs and the one effect is the matching fatal message |
| Cli.RunEffects | bin/snooze.js:9-12 | a run's effects are those of the resolved actions, followed by the fatal message when resolution stopped |
| Cli.ShippedFailuresAreUnknownFlags | bin/snooze.js:452-454 | with the shipped table, a failed run past the module gate always ends with `Unknown flag : <token>` |
| Cli.CompletedRun | bin/snooze.js:459 | a run whose resolution completes has exactly the resolved actions' effects and exits with 0 |
| Cli.NoArgumentsShowsHelp | bin/snooze.js:418-420 | `snooze <module>` prints exactly the help page and exits with 0 |
| Cli.BareRoutesListsAllRoutes | bin/snooze.js:245-246 | `snooze <module> -r` prints the routes report of all routes and exits with 0 |
| Cli.RoutesGetListsGetRoutes | bin/snooze.js:230-231 | `snooze <module> -r get` prints the routes report of the GET routes and exits with 0 |
| Cli.PlainFlagRun | bin/snooze.js:444-446 | `snooze <module> <flag>` for `help`, `-c`, `-s`, `-d`, `-v` or `api` has exactly that flag's action's effect and exits with 0 |

## Left out

- File-system effects are not modelled: the `existsSync`/`mkdirSync` of `api/`, the directory scaffolding of `_initDirectories` and the template reading of `_initMain`. The manifest write is recorded as a `WriteManifest` effect carrying its path and record. `init` and `init.helloworld` are recorded as an opaque `Bootstrap` effect. No flag reaches them, because the `init` entry of the table is commented out, and `_initHelloWorld` is not defined in the file.
- The JSON text of `JSON.stringify(api, null, 2)` is not modelled; the model keeps the record.
- Terminal colours are dropped, and each `console.log` is one string in a `Print` effect. An empty `console.log()` is the empty string.
- `process.argv` and `process.exit` become a parameter and the exit code. The `require` of `main.js` and of the framework is not modelled. Neither is the silencing of `console.log` while `main.js` loads. Whether `main.js` exists is a boolean parameter, and the registered modules are a map from name to collections.
- `Descriptors.RoutesOf` is the framework's `getRoutes(method)`. Its code is not part of this model; it is taken to keep the routes of that method, in accessor order.
- `runFlag` is not modelled: it is never called.
- Prototype keys are not modelled. In JavaScript, `flags["toString"]` is truthy and `methods["constructor"]` is a function. The model's lookups only see declared keys.
- Text.ToUpper: upper-cases ASCII letters only, not the full Unicode mapping of `toUpperCase`.
- Text.StrLe: orders strings by code point, where JavaScript compares UTF-16 code units. The two orders differ only above the Basic Multilingual Plane.
- DTO property values are the text they print as. JavaScript's conversion of numbers, booleans or objects to text is not modelled.
- `Cli.Snooze` assumes that a missing module name is never a registered module. It then gives the usage message.
- Objects that declare a key twice are not modelled. JavaScript keeps the last value and enumerates the key once, while the model's lookups find the first pair and the help page lists every pair. The shipped table declares no key twice (`Resolution.ShippedFindFlag`, `Resolution.ShippedRouteMethod`). The generic lemmas over any `Table` also cover tables with duplicate keys, which JavaScript cannot express.
- The order of a DTO's `__json` is given, not computed. JavaScript enumerates integer-like keys first, in ascending order, and then the other keys in insertion order. The model takes the entries already in that order.
- The uncaught `TypeError` of calling a missing action is recorded as a `Print` of its first line followed by exit code 1. Node writes it to standard error with a stack trace. The shipped table never reaches it.
- Sorting.StableSortOf: the stable-sort specification leaves the permutation out, because stability per key already determines the result. `SortBy` is proved to be a permutation separately, through its multiset.
