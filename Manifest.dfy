/**
 * The API manifest the `api` action writes to `api/<module>.api.json`: the
 * record before JSON serialisation.
 */
module Manifest {
  import opened Descriptors

  /** One element of `api.routes`: `{method, path, response, request}`. */
  datatype RouteEntry = RouteEntry(httpMethod: string, path: string, response: Json, request: Json)

  /** One element of `api.dtos`: `{name, properties, strict}`. */
  datatype DtoEntry = DtoEntry(name: string, properties: Json, strict: bool)

  /**
   * The manifest record, its fields in the order of the object literal:
   * `module`, `modules`, `routes`, `services`, `controllers`, `validators`, `dtos`.
   */
  datatype Api = Api(moduleName: string, modules: seq<Json>, routes: seq<RouteEntry>, services: seq<Json>,
                     controllers: seq<Json>, validators: seq<Json>, dtos: seq<DtoEntry>)

  function RouteEntryOf(r: Route): RouteEntry
  {
    RouteEntry(r.httpMethod, r.path, r.response, r.request)
  }

  function DtoEntryOf(d: Dto): DtoEntry
  {
    DtoEntry(d.name, d.properties, d.strict)
  }

  /** Where the manifest of module `modname` is written, relative to the working directory. */
  function ManifestPath(modname: string): string
  {
    "api/" + modname + ".api.json"
  }

  /** `api.routes` once every route is pushed. */
  function RouteEntries(routes: seq<Route>): (es: seq<RouteEntry>)
    ensures |es| == |routes|
    ensures forall i :: 0 <= i < |routes| ==> es[i] == RouteEntryOf(routes[i])
  {
    if routes == [] then [] else [RouteEntryOf(routes[0])] + RouteEntries(routes[1..])
  }

  /** `api.dtos` once every DTO is pushed. */
  function DtoEntries(dtos: seq<Dto>): (es: seq<DtoEntry>)
    ensures |es| == |dtos|
    ensures forall i :: 0 <= i < |dtos| ==> es[i] == DtoEntryOf(dtos[i])
  {
    if dtos == [] then [] else [DtoEntryOf(dtos[0])] + DtoEntries(dtos[1..])
  }

  /** The manifest of module `modname` with collections `m`. */
  function ApiOf(modname: string, m: Module): Api
  {
    Api(modname, [], RouteEntries(m.routes), [], [], [], DtoEntries(m.dtos))
  }

  /**
   * The body of the `api` action up to the write: the record starts empty,
   * then every route and every DTO is projected and pushed in accessor order.
   */
  method BuildApi(modname: string, m: Module) returns (api: Api)
    ensures api == ApiOf(modname, m)
    ensures api.moduleName == modname
    ensures api.modules == [] && api.services == [] && api.controllers == [] && api.validators == []
    ensures |api.routes| == |m.routes|
    ensures forall i :: 0 <= i < |m.routes| ==>
      api.routes[i] == RouteEntry(m.routes[i].httpMethod, m.routes[i].path, m.routes[i].response, m.routes[i].request)
    ensures |api.dtos| == |m.dtos|
    ensures forall i :: 0 <= i < |m.dtos| ==>
      api.dtos[i] == DtoEntry(m.dtos[i].name, m.dtos[i].properties, m.dtos[i].strict)
  {
    api := Api(modname, [], [], [], [], [], []);
    var routes := m.routes;
    var i := 0;
    while i < |routes|
      invariant 0 <= i <= |routes|
      invariant api == Api(modname, [], api.routes, [], [], [], [])
      invariant |api.routes| == i
      invariant forall j :: 0 <= j < i ==> api.routes[j] == RouteEntryOf(routes[j])
    {
      var rt := RouteEntry(routes[i].httpMethod, routes[i].path, routes[i].response, routes[i].request);
      api := api.(routes := api.routes + [rt]);
      i := i + 1;
    }
    var dtos := m.dtos;
    i := 0;
    while i < |dtos|
      invariant 0 <= i <= |dtos|
      invariant api == Api(modname, [], RouteEntries(routes), [], [], [], api.dtos)
      invariant |api.dtos| == i
      invariant forall j :: 0 <= j < i ==> api.dtos[j] == DtoEntryOf(dtos[j])
    {
      var dto := DtoEntry(dtos[i].name, dtos[i].properties, dtos[i].strict);
      api := api.(dtos := api.dtos + [dto]);
      i := i + 1;
    }
  }
}
