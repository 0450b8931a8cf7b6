/**
 * The metadata a snooze module exposes, as the introspection tool reads it
 * through `snooze.module(name)`: routes, controllers, services, validators
 * and DTOs. The tool never changes them.
 */
module Descriptors {
  import opened Wrappers
  import opened Sorting

  /** A JSON value: request/response shapes and DTO property maps are carried as-is. */
  datatype Json =
    | JNull
    | JBool(b: bool)
    | JNum(n: real)
    | JStr(s: string)
    | JArr(items: seq<Json>)
    | JObj(fields: seq<(string, Json)>)

  /** A route: `getMethod()`, `getPath()`, `getController()` (may be absent), `getRequest()`, `getResponse()`. */
  datatype Route = Route(httpMethod: string, path: string, controller: Option<string>, request: Json, response: Json)

  /** A controller, service or validator: `getName()`, `__getServices()`, `__getDTOs()`. */
  datatype Component = Component(name: string, services: seq<string>, dtos: seq<string>)

  /** One entry of a DTO's `__json`; each field is the text it prints as, or absent. */
  datatype Property = Property(typeName: Option<string>, defaultValue: Option<string>,
                               description: Option<string>, example: Option<string>)

  /**
   * A DTO: its name and injectables, its `__json` entries in enumeration
   * order, and what `getProperties()` and `isStrict()` return.
   */
  datatype Dto = Dto(name: string, services: seq<string>, dtos: seq<string>,
                     json: seq<(string, Property)>, properties: Json, strict: bool)

  /** The collections of one loaded module, in accessor order. */
  datatype Module = Module(routes: seq<Route>, controllers: seq<Component>, services: seq<Component>,
                           validators: seq<Component>, dtos: seq<Dto>)

  /** Sort key of `printRoutes`. */
  function MethodOf(r: Route): string { r.httpMethod }

  /** Sort key of `printControllers` and `printValidators`. */
  function NameOf(c: Component): string { c.name }

  /**
   * `getRoutes()` and `getRoutes(method)`. The accessor belongs to the host
   * framework; this model takes the filtered form to keep the routes with
   * that method, in accessor order.
   */
  function RoutesOf(m: Module, filter: Option<string>): seq<Route>
  {
    match filter
    case None => m.routes
    case Some(v) => Filter(m.routes, Keyed(MethodOf, v))
  }
}
