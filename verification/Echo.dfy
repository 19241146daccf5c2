/** Registering series of routes through the framework's front object. */
module EchoRoutes {
  import opened Wrappers
  import opened RoutePaths
  import opened RouteTable
  import opened RouterState
  import opened RouteOrder
  import opened Router

  /** The registrations of one handler for several methods. */
  function RoutesOf(verbs: seq<string>, path: string, h: Option<Handler>): (r: seq<Route>)
    ensures |r| == |verbs| && forall i :: 0 <= i < |verbs| ==> r[i] == Route(verbs[i], path, "", h, false)
  {
    seq(|verbs|, i requires 0 <= i < |verbs| => Route(verbs[i], path, "", h, false))
  }

  class Echo {
    const router: DefaultRouter

    constructor (config: RouterConfig)
      ensures router.Valid() && fresh(router) && fresh(router.nodes) && router.config == config
      ensures router.Kept() == NewBook
    {
      router := new DefaultRouter(config);
    }

    method AddRoute(route: Route) returns (r: Result<RouteInfo, AddError>)
      requires router.Valid() && !HasEscape(Normalize(route.path))
      modifies router`routes, router`nodes, router`entries, router`maxPathParamsLength, router.nodes
      ensures router.Valid() && OnlyFresh(old(router.nodes), router.nodes)
      ensures r == Registration(router.config, old(router.routes), route)
      ensures router.Kept() == AddTo(router.config, old(router.Kept()), route)
    {
      r := router.Add(route);
    }

    /**
     Registers the routes one after the other. One that fails does not stop the series; what has been registered are
     the bindings of those that succeed, in their order.
     */
    method AddRoutes(rs: seq<Route>) returns (ris: seq<RouteInfo>, errs: seq<AddError>)
      requires router.Valid() && forall x :: x in rs ==> !HasEscape(Normalize(x.path))
      modifies router`routes, router`nodes, router`entries, router`maxPathParamsLength, router.nodes
      ensures router.Valid() && OnlyFresh(old(router.nodes), router.nodes)
      ensures router.Kept() == AddAllTo(router.config, old(router.Kept()), rs)
      ensures router.entries == BindOn(old(router.entries), Accepted(router.config, old(router.Kept()), rs))
      ensures ris == Successes(Outcomes(router.config, old(router.Kept()), rs))
      ensures errs == Failures(Outcomes(router.config, old(router.Kept()), rs))
      ensures old(router.Kept()) == NewBook && Orderly(router.config, rs) ==>
                errs == [] && router.entries == BindAll(BoundAll(router.config, rs))
    {
      ghost var start := router.Kept();
      ris, errs := [], [];
      for i := 0 to |rs|
        invariant router.Valid() && OnlyFresh(old(router.nodes), router.nodes)
        invariant router.Kept() == AddAllTo(router.config, start, rs[..i])
        invariant ris == Successes(Outcomes(router.config, start, rs[..i]))
        invariant errs == Failures(Outcomes(router.config, start, rs[..i]))
      {
        AddsOneMore(router.config, start, rs, i);
        var r := AddRoute(rs[i]);
        if r.Failure? {
          errs := errs + [r.error];
        } else {
          ris := ris + [r.value];
        }
      }
      assert rs[..|rs|] == rs;
      AddAllBinds(router.config, start, rs);
      if start == NewBook && Orderly(router.config, rs) {
        OrderlyAreAccepted(router.config, rs);
      }
    }

    /** One handler for several methods; a failure of any of them panics at the end. */
    method Match(verbs: seq<string>, path: string, h: Option<Handler>) returns (r: Result<seq<RouteInfo>, seq<AddError>>)
      requires router.Valid() && !HasEscape(Normalize(path))
      modifies router`routes, router`nodes, router`entries, router`maxPathParamsLength, router.nodes
      ensures router.Valid() && OnlyFresh(old(router.nodes), router.nodes)
      ensures router.Kept() == AddAllTo(router.config, old(router.Kept()), RoutesOf(verbs, path, h))
      ensures var os := Outcomes(router.config, old(router.Kept()), RoutesOf(verbs, path, h));
              r == if Failures(os) == [] then Success(Successes(os)) else Failure(Failures(os))
    {
      var ris, errs := AddRoutes(RoutesOf(verbs, path, h));
      r := if errs != [] then Failure(errs) else Success(ris);
    }
  }
}
