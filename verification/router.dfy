/** `Router`: a table from (method, path) routes to handlers, consulted by
    exact key. A handler is opaque here: `H` stands for the handler values
    and `run` for what calling one does to the response, so that dispatch
    can be stated as "which handler ran, on what, how often". */
module Router {
  import opened Wrappers
  import opened Http

  /** `HTTPRoute`: a method and a path, compared as a pair. */
  type Route = (Method, string)

  datatype Router<H> = Router(routes: map<Route, H>)

  /** The outcome of `Router::handle`: the returned `Result`, the response
      after the call, and the handlers invoked, in order. */
  datatype Dispatch<H> = Dispatch(outcome: Result<(), string>, response: Response, invoked: seq<H>)

  const RouteNotFound: string := "Route not found"

  /** `HashMap::get` on the route table. */
  function Lookup<H>(r: Router<H>, route: Route): (found: Option<H>)
    ensures found.Some? <==> route in r.routes
    ensures found.Some? ==> found.value == r.routes[route]
  {
    if route in r.routes then Some(r.routes[route]) else None
  }

  /** `Router::new`: no route is bound. */
  function New<H>(): (r: Router<H>)
    ensures forall route :: Lookup(r, route) == None
  {
    Router(map[])
  }

  /** `Router::bind`: afterwards `route` yields `handler`, every other route
      yields what it yielded before, and the bound routes grow by `route`
      alone. */
  function Bind<H>(r: Router<H>, route: Route, handler: H): (r': Router<H>)
    ensures Lookup(r', route) == Some(handler)
    ensures forall other :: other != route ==> Lookup(r', other) == Lookup(r, other)
    ensures r'.routes.Keys == r.routes.Keys + {route}
  {
    Router(r.routes[route := handler])
  }

  /** `Router::handle`: an unbound route is the error "Route not found", with
      no handler run and the response untouched; a bound route runs its
      handler exactly once, on the request and the response, and succeeds. */
  function Handle<H>(
    r: Router<H>, route: Route, request: Request, response: Response,
    run: (H, Request, Response) -> Response): (d: Dispatch<H>)
    ensures Lookup(r, route).None? <==> d.outcome.Failure?
    ensures d.outcome.Failure? ==>
      d.outcome.error == RouteNotFound && d.response == response && d.invoked == []
    ensures d.outcome.Success? ==>
      var h := Lookup(r, route).value;
      d.invoked == [h] && d.response == run(h, request, response)
  {
    match Lookup(r, route)
    case None => Dispatch(Failure(RouteNotFound), response, [])
    case Some(h) => Dispatch(Success(()), run(h, request, response), [h])
  }

  /** A new router answers every route with "Route not found". */
  lemma HandleOnNew<H>(route: Route, request: Request, response: Response, run: (H, Request, Response) -> Response)
    ensures Handle(New<H>(), route, request, response, run) == Dispatch(Failure(RouteNotFound), response, [])
  {
  }

  /** After binding a route, handling it runs the bound handler once. */
  lemma HandleAfterBind<H>(
    r: Router<H>, route: Route, handler: H, request: Request, response: Response,
    run: (H, Request, Response) -> Response)
    ensures Handle(Bind(r, route, handler), route, request, response, run)
         == Dispatch(Success(()), run(handler, request, response), [handler])
  {
  }

  /** Binding a route leaves the handling of every other route as it was. */
  lemma HandleOtherAfterBind<H>(
    r: Router<H>, route: Route, handler: H, other: Route, request: Request, response: Response,
    run: (H, Request, Response) -> Response)
    requires other != route
    ensures Handle(Bind(r, route, handler), other, request, response, run)
         == Handle(r, other, request, response, run)
  {
  }

  /** Binding a route twice keeps only the second handler. */
  lemma RebindReplaces<H>(r: Router<H>, route: Route, first: H, second: H)
    ensures Bind(Bind(r, route, first), route, second) == Bind(r, route, second)
  {
  }

  /** Bindings of distinct routes can be made in either order. */
  lemma BindCommutes<H>(r: Router<H>, a: Route, ha: H, b: Route, hb: H)
    requires a != b
    ensures Bind(Bind(r, a, ha), b, hb) == Bind(Bind(r, b, hb), a, ha)
  {
  }
}
