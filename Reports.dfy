/**
 * The text reports of the introspection tool (`printRoutes`,
 * `printControllers`, `printServices`, `printValidators`, `printDTOs`),
 * as the sequence of lines they log, without colours.
 */
module Reports {
  import opened Wrappers
  import opened Text
  import opened Sorting
  import opened Descriptors

  /** The methods `printRoutes`' switch has a case for. */
  const KnownMethods: set<string> := {"get", "post", "put", "delete", "resource"}

  function IsKnown(r: Route): bool { r.httpMethod in KnownMethods }

  /** The line for one route; `options.prepend` is used only when it is a non-empty (truthy) string. */
  function RouteLine(r: Route, prepend: Option<string>): string
  {
    var out := ToUpper(r.httpMethod) + " => " + r.path;
    if prepend.Some? && prepend.value != "" then prepend.value + out else out
  }

  /**
   * The `_.each` of `printRoutes` over the already sorted routes: the switch
   * logs a line for a known method and nothing otherwise. Its contract is the
   * same output computed the other way round: drop the unknown routes, then
   * format each remaining one.
   */
  function EmitRoutes(sorted: seq<Route>, prepend: Option<string>): (lines: seq<string>)
    ensures |lines| == |Filter(sorted, IsKnown)|
    ensures forall i :: 0 <= i < |lines| ==> lines[i] == RouteLine(Filter(sorted, IsKnown)[i], prepend)
  {
    if sorted == [] then []
    else
      assert Filter(sorted, IsKnown) ==
             (if IsKnown(sorted[0]) then [sorted[0]] else []) + Filter(sorted[1..], IsKnown);
      (if IsKnown(sorted[0]) then [RouteLine(sorted[0], prepend)] else []) + EmitRoutes(sorted[1..], prepend)
  }

  /** `printRoutes(routes, options)`. */
  function PrintRoutes(routes: seq<Route>, prepend: Option<string>): seq<string>
  {
    EmitRoutes(SortBy(routes, MethodOf), prepend)
  }

  /**
   * The routes report is, line by line, the known-method routes stably
   * sorted by method: any `shown` that sorts them stably gives its lines.
   */
  lemma PrintRoutesSpec(routes: seq<Route>, prepend: Option<string>, shown: seq<Route>)
    requires StableSortOf(shown, Filter(routes, IsKnown), MethodOf)
    ensures |PrintRoutes(routes, prepend)| == |shown|
    ensures forall i :: 0 <= i < |shown| ==> PrintRoutes(routes, prepend)[i] == RouteLine(shown[i], prepend)
  {
    SortByIsStableSort(routes, MethodOf);
    FilterOfStableSort(SortBy(routes, MethodOf), routes, MethodOf, IsKnown);
    StableSortUnique(shown, Filter(SortBy(routes, MethodOf), IsKnown), Filter(routes, IsKnown), MethodOf);
  }

  /**
   * Among the routes the report shows, those of method `m` are all the
   * routes of method `m` in input order when `m` is one of the five known
   * methods, and none otherwise.
   */
  lemma KnownGroups(routes: seq<Route>, m: string)
    ensures Filter(Filter(routes, IsKnown), Keyed(MethodOf, m)) ==
            if m in KnownMethods then Filter(routes, Keyed(MethodOf, m)) else []
  {
    FilterCommute(routes, IsKnown, Keyed(MethodOf, m));
    var group := Filter(routes, Keyed(MethodOf, m));
    forall x | x in group ensures x.httpMethod == m {
      FilterMembers(routes, Keyed(MethodOf, m), x);
      assert Keyed(MethodOf, m)(x);
    }
    if m in KnownMethods {
      FilterKeepsAll(group, IsKnown);
    } else {
      FilterDropsAll(group, IsKnown);
    }
  }

  /** Each item on its own line, behind a tab. */
  function Tabbed(items: seq<string>): (lines: seq<string>)
    ensures |lines| == |items|
    ensures forall i :: 0 <= i < |items| ==> lines[i] == "\t" + items[i]
  {
    if items == [] then [] else ["\t" + items[0]] + Tabbed(items[1..])
  }

  /**
   * The `@Services` and `@DTOs` sections every report prints for an item:
   * each header appears, followed by its list, exactly when the list is
   * non-empty, services first.
   */
  function InjectableLines(services: seq<string>, dtos: seq<string>): (lines: seq<string>)
    ensures var off := if |services| > 0 then 1 + |services| else 0;
      && |lines| == off + (if |dtos| > 0 then 1 + |dtos| else 0)
      && (|services| > 0 ==> lines[0] == "\t@Services")
      && (forall i :: 0 <= i < |services| ==> lines[1 + i] == "\t" + services[i])
      && (|dtos| > 0 ==> lines[off] == "\t@DTOs")
      && (forall i :: 0 <= i < |dtos| ==> lines[off + 1 + i] == "\t" + dtos[i])
  {
    (if |services| > 0 then ["\t@Services"] + Tabbed(services) else []) +
    (if |dtos| > 0 then ["\t@DTOs"] + Tabbed(dtos) else [])
  }

  /** The block of a service or validator: its name, then its injectables. */
  function ComponentBlock(c: Component): seq<string>
  {
    [c.name] + InjectableLines(c.services, c.dtos)
  }

  /**
   * `printServices(services)`. The sorted copy of the argument is discarded:
   * line 98 re-declares `services` with the module's unsorted collection, so
   * services print in accessor order.
   */
  function ServicesReport(services: seq<Component>, m: Module): seq<string>
  {
    Concat(m.services, ComponentBlock)
  }

  /**
   * The services report lists the module's services in accessor order,
   * whatever the argument: the `i`-th service's block sits between the
   * blocks of those before and after it. This is `ConcatSplit` on the
   * report's definition; its content is that the argument plays no part.
   */
  lemma ServicesReportAccessorOrder(services: seq<Component>, m: Module, i: nat)
    requires i < |m.services|
    ensures ServicesReport(services, m) ==
            Concat(m.services[..i], ComponentBlock) + ComponentBlock(m.services[i]) + Concat(m.services[i + 1..], ComponentBlock)
  {
    ConcatSplit(m.services, ComponentBlock, i);
  }

  /** Two services given out of name order print out of name order. */
  lemma ServicesReportUnsorted()
    ensures var m := Module([], [], [Component("b", [], []), Component("a", [], [])], [], []);
      ServicesReport(m.services, m) == ["b", "a"] &&
      Concat(SortBy(m.services, NameOf), ComponentBlock) == ["a", "b"]
  {
    var b, a := Component("b", [], []), Component("a", [], []);
    assert !StrLe("b", "a");
    assert SortBy([b, a], NameOf) == Insert(b, SortBy([a], NameOf), NameOf);
    assert [b, a][1..] == [a];
  }

  /** `printValidators(validators)`. */
  function ValidatorsReport(validators: seq<Component>): seq<string>
  {
    Concat(SortBy(validators, NameOf), ComponentBlock)
  }

  /** The validators report is the blocks of the validators stably sorted by name. */
  lemma ValidatorsReportSpec(validators: seq<Component>, sorted: seq<Component>)
    requires StableSortOf(sorted, validators, NameOf)
    ensures ValidatorsReport(validators) == Concat(sorted, ComponentBlock)
  {
    StableSortIsSortBy(sorted, validators, NameOf);
  }

  /** Whether a route names the controller `name`; an absent controller matches none. */
  function OwnedBy(name: string): Route -> bool
  {
    (r: Route) => r.controller == Some(name)
  }

  /** `ctrlRoutes` of `printControllers`: the routes pointing to the controller, in route-collection order. */
  function ControllerRoutes(routes: seq<Route>, name: string): seq<Route>
  {
    Filter(routes, OwnedBy(name))
  }

  /**
   * Lines 62-70 of `printControllers`: `ctrlRoutes` grows by `push` while
   * walking the module's routes.
   */
  method CollectControllerRoutes(routes: seq<Route>, name: string) returns (ctrlRoutes: seq<Route>)
    ensures ctrlRoutes == ControllerRoutes(routes, name)
    ensures forall r :: r in ctrlRoutes <==> r in routes && r.controller == Some(name)
  {
    ctrlRoutes := [];
    var i := 0;
    while i < |routes|
      invariant 0 <= i <= |routes|
      invariant ctrlRoutes == Filter(routes[..i], OwnedBy(name))
    {
      FilterAppend(routes[..i], [routes[i]], OwnedBy(name));
      assert routes[..i + 1] == routes[..i] + [routes[i]];
      if routes[i].controller == Some(name) {
        ctrlRoutes := ctrlRoutes + [routes[i]];
      }
      i := i + 1;
    }
    assert routes[..i] == routes;
    forall r ensures r in ctrlRoutes <==> r in routes && r.controller == Some(name) {
      FilterMembers(routes, OwnedBy(name), r);
    }
  }

  /** One controller's block: its name, its routes under `@Routes` (re-sorted by method, tab-prefixed), then its injectables. */
  function ControllerBlock(c: Component, routes: seq<Route>): seq<string>
  {
    var own := ControllerRoutes(routes, c.name);
    [c.name] +
    (if |own| > 0 then ["\t@Routes"] + PrintRoutes(own, Some("\t")) else []) +
    InjectableLines(c.services, c.dtos)
  }

  /** The block of each controller against a fixed route collection. */
  function ControllerBlockOf(routes: seq<Route>): Component -> seq<string>
  {
    (c: Component) => ControllerBlock(c, routes)
  }

  /** `printControllers(controllers)`, joined against the module's routes. */
  function ControllersReport(controllers: seq<Component>, m: Module): seq<string>
  {
    Concat(SortBy(controllers, NameOf), ControllerBlockOf(m.routes))
  }

  /** The controllers report is the blocks of the controllers stably sorted by name. */
  lemma ControllersReportSpec(controllers: seq<Component>, m: Module, sorted: seq<Component>)
    requires StableSortOf(sorted, controllers, NameOf)
    ensures ControllersReport(controllers, m) == Concat(sorted, ControllerBlockOf(m.routes))
  {
    StableSortIsSortBy(sorted, controllers, NameOf);
  }

  /** Some route names the controller exactly when the controller has routes to list. */
  lemma OwnedRoutesExist(routes: seq<Route>, name: string)
    ensures ControllerRoutes(routes, name) != [] <==>
            exists i :: 0 <= i < |routes| && routes[i].controller == Some(name)
  {
    var own := ControllerRoutes(routes, name);
    if exists i :: 0 <= i < |routes| && routes[i].controller == Some(name) {
      var i :| 0 <= i < |routes| && routes[i].controller == Some(name);
      assert OwnedBy(name)(routes[i]);
      FilterMembers(routes, OwnedBy(name), routes[i]);
    }
    if own != [] {
      FilterMembers(routes, OwnedBy(name), own[0]);
      assert own[0] in routes && OwnedBy(name)(own[0]);
      var i :| 0 <= i < |routes| && routes[i] == own[0];
      assert routes[i].controller == Some(name);
    }
  }

  /** The injectables of an item start with one of their two headers. */
  lemma InjectablesOpenWithHeader(services: seq<string>, dtos: seq<string>)
    requires InjectableLines(services, dtos) != []
    ensures InjectableLines(services, dtos)[0] in {"\t@Services", "\t@DTOs"}
  {
  }

  /**
   * A controller's block opens with its name; its second line is the
   * `@Routes` header exactly when some route names the controller, and the
   * route lines that follow are those of exactly these routes.
   */
  lemma ControllerBlockSpec(c: Component, routes: seq<Route>)
    ensures var block := ControllerBlock(c, routes);
      && block[0] == c.name
      && ((|block| > 1 && block[1] == "\t@Routes") <==>
          exists i :: 0 <= i < |routes| && routes[i].controller == Some(c.name))
      && (ControllerRoutes(routes, c.name) != [] ==>
          block[2..2 + |PrintRoutes(ControllerRoutes(routes, c.name), Some("\t"))|] ==
          PrintRoutes(ControllerRoutes(routes, c.name), Some("\t")))
  {
    var own := ControllerRoutes(routes, c.name);
    var inj := InjectableLines(c.services, c.dtos);
    var block := ControllerBlock(c, routes);
    OwnedRoutesExist(routes, c.name);
    if own != [] {
      var lines := PrintRoutes(own, Some("\t"));
      assert block == [c.name] + (["\t@Routes"] + lines) + inj;
      assert block[2..2 + |lines|] == lines;
    } else {
      assert block == [c.name] + inj;
      if |inj| > 0 {
        InjectablesOpenWithHeader(c.services, c.dtos);
        assert "\t@Services"[2] == 'S' && "\t@DTOs"[2] == 'D' && "\t@Routes"[2] == 'R';
        assert block[1] == inj[0];
      }
    }
  }

  /** The lines of one `__json` property: one per field that is defined, in this order. */
  function PropertyLines(p: Property): seq<string>
  {
    (if p.typeName.Some? then ["\t\tType: " + p.typeName.value] else []) +
    (if p.defaultValue.Some? then ["\t\tDefault: " + p.defaultValue.value] else []) +
    (if p.description.Some? then ["\t\tDescription: " + p.description.value] else []) +
    (if p.example.Some? then ["\t\tExample: " + p.example.value] else [])
  }

  /** A property prints a field's line exactly when that field is defined. */
  lemma PropertyLinesSpec(p: Property, v: string)
    ensures ("\t\tType: " + v in PropertyLines(p)) <==> p.typeName == Some(v)
    ensures ("\t\tDefault: " + v in PropertyLines(p)) <==> p.defaultValue == Some(v)
    ensures ("\t\tDescription: " + v in PropertyLines(p)) <==> p.description == Some(v)
    ensures ("\t\tExample: " + v in PropertyLines(p)) <==> p.example == Some(v)
  {
    var lines := PropertyLines(p);
    forall l | l in lines
      ensures |l| > 2 && l[..2] == "\t\t"
      ensures l[2] == 'T' ==> p.typeName.Some? && l == "\t\tType: " + p.typeName.value
      ensures l[2] == 'E' ==> p.example.Some? && l == "\t\tExample: " + p.example.value
      ensures l[2] == 'D' && l[4] == 'f' ==> p.defaultValue.Some? && l == "\t\tDefault: " + p.defaultValue.value
      ensures l[2] == 'D' && l[4] == 's' ==> p.description.Some? && l == "\t\tDescription: " + p.description.value
    {
    }
    var t, d, s, e := "\t\tType: " + v, "\t\tDefault: " + v, "\t\tDescription: " + v, "\t\tExample: " + v;
    assert t[2] == 'T' && d[2] == 'D' && d[4] == 'f' && s[2] == 'D' && s[4] == 's' && e[2] == 'E';
    assert t[..8] == "\t\tType: " && d[..11] == "\t\tDefault: ";
    assert s[..15] == "\t\tDescription: " && e[..11] == "\t\tExample: ";
    assert t[8..] == v && d[11..] == v && s[15..] == v && e[11..] == v;
  }

  /** Every line of a property is indented by two tabs, below its field's line. */
  lemma PropertyLinesIndented(p: Property)
    ensures forall l :: l in PropertyLines(p) ==> |l| > 2 && l[..2] == "\t\t"
  {
  }

  /** A field's line is never one of a property's lines. */
  lemma NotPropertyLine(p: Property, k: string)
    ensures "\t- " + k !in PropertyLines(p)
  {
    PropertyLinesIndented(p);
    assert ("\t- " + k)[1] == '-';
  }

  /** The `for ... in dto.__json` loop: every key but `__methods`, each followed by its property's lines. */
  function FieldLines(json: seq<(string, Property)>): seq<string>
  {
    if json == [] then [] else EntryLines(json[0].0, json[0].1) + FieldLines(json[1..])
  }

  /** The lines of one `__json` entry. */
  function EntryLines(key: string, param: Property): seq<string>
  {
    if key != "__methods" then ["\t- " + key] + PropertyLines(param) else []
  }

  /** An entry shows the key line for `k` exactly when it is the entry of `k` and `k` is not `__methods`. */
  lemma EntryListsKey(key: string, param: Property, k: string)
    ensures ("\t- " + k in EntryLines(key, param)) <==> key != "__methods" && key == k
  {
    var line := "\t- " + k;
    NotPropertyLine(param, k);
    if line == "\t- " + key {
      assert line[3..] == k && ("\t- " + key)[3..] == key;
    }
  }

  /** A DTO lists a key exactly when the key is in its `__json` and is not `__methods`. */
  lemma {:induction false} FieldLinesSpec(json: seq<(string, Property)>, k: string)
    ensures ("\t- " + k in FieldLines(json)) <==>
            k != "__methods" && exists i :: 0 <= i < |json| && json[i].0 == k
  {
    if json != [] {
      FieldLinesSpec(json[1..], k);
      EntryListsKey(json[0].0, json[0].1, k);
      assert FieldLines(json) == EntryLines(json[0].0, json[0].1) + FieldLines(json[1..]);
      if exists i :: 0 <= i < |json| && json[i].0 == k {
        var i :| 0 <= i < |json| && json[i].0 == k;
        if i > 0 {
          assert json[1..][i - 1].0 == k;
        }
      }
      if exists i :: 0 <= i < |json[1..]| && json[1..][i].0 == k {
        var i :| 0 <= i < |json[1..]| && json[1..][i].0 == k;
        assert json[i + 1].0 == k;
      }
    }
  }

  /** One DTO's block: its name, its injectables, then its fields. */
  function DtoBlock(d: Dto): seq<string>
  {
    [d.name] + InjectableLines(d.services, d.dtos) + FieldLines(d.json)
  }

  /** `printDTOs(dtos)`: in accessor order, unsorted. */
  function DtosReport(dtos: seq<Dto>): seq<string>
  {
    Concat(dtos, DtoBlock)
  }

  /**
   * The DTO report shows the blocks in accessor order, unsorted: the `i`-th
   * DTO's block sits between the blocks of those before and after it. This
   * is `ConcatSplit` on the report's definition.
   */
  lemma DtosReportAccessorOrder(dtos: seq<Dto>, i: nat)
    requires i < |dtos|
    ensures DtosReport(dtos) == Concat(dtos[..i], DtoBlock) + DtoBlock(dtos[i]) + Concat(dtos[i + 1..], DtoBlock)
  {
    ConcatSplit(dtos, DtoBlock, i);
  }
}
