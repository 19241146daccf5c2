/** What a router that was built by registrations answers. */
module RouteAnswers {
  import opened Wrappers
  import opened RoutePaths
  import opened RouteTable
  import opened RadixInsert
  import opened RadixRemove
  import opened RouteTheorems
  import opened RoutePriority
  import opened RouterState

  /**
   A request for a path without marks that is registered: its own method answers first, GET answers for HEAD without a
   route of its own if that is switched on, and the route for any method answers only where neither is bound.
   */
  lemma PlainPathIsServed(e: Entries, verb: string, autoHead: bool, path: string, values: seq<string>)
    requires EntriesOk(e) && IsPlain(path) && path in e
    ensures var bound, o := e[path].methods.bound, Lookup(RequestQuery(e, verb, autoHead), path, values);
            && (verb in bound && verb != "echo_route_not_found" ==> o.Hit? && o.shape == path && o.route == bound[verb])
            && (verb == "HEAD" && autoHead && "HEAD" !in bound && "GET" in bound ==>
                  o.Hit? && o.shape == path && o.route == bound["GET"])
            && (verb !in bound && !(verb == "HEAD" && autoHead && "GET" in bound) && "echo_route_any" in bound ==>
                  o.Hit? && o.shape == path && o.route == bound["echo_route_any"])
  {
    var q := RequestQuery(e, verb, autoHead);
    RequestIsProper(e, verb, autoHead);
    FindAnswers(q, path);
    if q.At(path).methods.IsHandler() && q.At(path).methods.Find(q.verb, true, q.autoHead).Some? {
      ExactRouteWins(q, path, values);
    }
  }

  /** The handler for a request that a route matches: that for HEAD requests, if the route has one. */
  function HandlerOf(rm: RouteMethod, verb: string): Handler {
    if verb == "HEAD" && rm.headHandler.Some? then rm.headHandler.value else rm.handler
  }

  /** A request is answered by the first registered shape that fits its path, if that has an answer. */
  lemma FirstShapeDecides(e: Entries, verb: string, autoHead: bool, path: string, values: seq<string>, slots: seq<string>,
                          fallbacks: Fallbacks, t: string)
    requires EntriesOk(e) && Resolvable(Lookup(RequestQuery(e, verb, autoHead), path, values), slots)
    requires var q := RequestQuery(e, verb, autoHead); DecidesFirst(q, path, t) && AnswerAt(q, t).Some?
    ensures var q := RequestQuery(e, verb, autoHead);
            var r, rm := Resolve(q, fallbacks, Lookup(q, path, values), slots), AnswerAt(q, t).value;
            r.handler == HandlerOf(rm, verb) && r.info == Matched(rm) && r.path == rm.path
  {
    RequestIsProper(e, verb, autoHead);
    FirstShapeAnswers(RequestQuery(e, verb, autoHead), path, values, t);
  }

  /**
   Without an answer there, the first fitting shape with any handler decides: its not-found route answers, or the handler
   for a method that is not allowed, which for OPTIONS is one of its own. Where no shape fits, nothing is found.
   */
  lemma BestShapeDecides(e: Entries, verb: string, autoHead: bool, path: string, values: seq<string>, slots: seq<string>,
                         fallbacks: Fallbacks)
    requires EntriesOk(e) && Resolvable(Lookup(RequestQuery(e, verb, autoHead), path, values), slots)
    requires var q := RequestQuery(e, verb, autoHead); forall t :: DecidesFirst(q, path, t) ==> AnswerAt(q, t).None?
    ensures var q := RequestQuery(e, verb, autoHead);
            var r := Resolve(q, fallbacks, Lookup(q, path, values), slots);
            && ((forall b :: !IsBest(q, path, b)) ==> r == RouteResult(fallbacks.notFound, NotMatched, "", []))
            && forall b :: IsBest(q, path, b) ==>
                 var bound := e[b].methods.bound;
                 if "echo_route_not_found" in bound then
                   var rm := bound["echo_route_not_found"];
                   r.handler == rm.handler && r.info == Matched(rm) && r.path == rm.path
                 else
                   && r.handler == (if verb == "OPTIONS" then fallbacks.options else fallbacks.methodNotAllowed)
                   && r.info == MethodNotAllowed && r.path == e[b].lastPath
  {
    var q := RequestQuery(e, verb, autoHead);
    var o := Lookup(q, path, values);
    RequestIsProper(e, verb, autoHead);
    BestShapeIsKept(q, path, values);
    if t :| DecidesFirst(q, path, t) {
      FirstShapeAnswers(q, path, values, t);
    }
    forall b | IsBest(q, path, b) ensures o.st.best == Some(b) {
      BestIsUnique(q, path, b, o.st.best.value);
    }
  }

  // ---------------------------------------------------------------------------
  // Registrations.

  /** When a registration is refused, and what it returns otherwise. */
  lemma RegistrationTells(config: RouterConfig, b: Book, route: Route)
    ensures var r := Registration(config, b.routes, route);
            && (r == Failure(NoHandler) <==> route.handler.None? && route.verb !in {"OPTIONS", "echo_route_not_found"})
            && (r == Failure(DuplicateRoute) <==>
                  && r != Failure(NoHandler) && !config.allowOverwritingRoute && !route.allowOverwrite
                  && exists i :: 0 <= i < |b.routes| && b.routes[i].verb == route.verb && b.routes[i].path == route.path)
            && (r.Failure? ==> AddTo(config, b, route) == b)
            && (r.Success? ==>
                  && r.value.verb == route.verb && r.value.path == route.path
                  && r.value.params == Names(Normalize(route.path))
                  && r.value.name == if route.name == "" then route.verb + ":" + route.path else route.name)
  {
  }

  /** The same registration for a second time is refused, unless it may overwrite. */
  lemma TwiceIsRefused(config: RouterConfig, b: Book, route: Route)
    requires Registration(config, b.routes, route).Success? && !config.allowOverwritingRoute && !route.allowOverwrite
    ensures Registration(config, AddTo(config, b, route).routes, route) == Failure(DuplicateRoute)
  {
    StoringKeepsListed(b.routes, Registration(config, b.routes, route).value, route.verb, route.path);
  }

  /** The handler of a registration: that of the route, or a default for the two methods that have one. */
  lemma HandlerIsOwn(config: RouterConfig, route: Route)
    ensures route.handler.Some? ==> EffectiveHandler(config, route) == route.handler
    ensures route.handler.None? && route.verb == "OPTIONS" ==> EffectiveHandler(config, route) == Some(config.fallbacks.options)
    ensures route.handler.None? && route.verb == "echo_route_not_found" ==>
              EffectiveHandler(config, route) == Some(config.fallbacks.notFound)
  {
  }

  lemma AddedIsBound(config: RouterConfig, b: Book, route: Route, p: string)
    requires EntriesOk(b.entries) && Registration(config, b.routes, route).Success?
    requires p == Normalize(route.path) && IsPlain(p)
    ensures var e := AddTo(config, b, route).entries;
            EntriesOk(e) && p in e && route.verb in e[p].methods.bound && e[p].methods.bound[route.verb] == Bound(config, route)
    ensures forall v :: v != route.verb ==>
              (IsBoundIn(AddTo(config, b, route).entries, p, v) <==> IsBoundIn(b.entries, p, v))
  {
    ShapeOfPlain(p);
    BindKeepsEntriesOk(b.entries, p, Bound(config, route));
  }

  /** A route without marks that has been registered with a handler answers the requests for it with that handler. */
  lemma AddedIsServed(config: RouterConfig, b: Book, route: Route, p: string, h: Handler, values: seq<string>,
                      slots: seq<string>)
    requires EntriesOk(b.entries) && Registration(config, b.routes, route).Success?
    requires p == Normalize(route.path) && IsPlain(p)
    requires route.handler == Some(h) && route.verb != "echo_route_not_found" && |slots| == |values|
    ensures var q := RequestQuery(AddTo(config, b, route).entries, route.verb, config.autoHandleHead);
            var o := Lookup(q, p, values);
            && Resolvable(o, slots)
            && var r := Resolve(q, config.fallbacks, o, slots);
               && r.handler == h && r.path == p && r.values == []
               && r.info.Matched? && r.info.route.name == route.name && r.info.route.verb == route.verb
  {
    var e := AddTo(config, b, route).entries;
    AddedIsBound(config, b, route, p);
    PlainPathIsServed(e, route.verb, config.autoHandleHead, p, values);
    var q := RequestQuery(e, route.verb, config.autoHandleHead);
    SearchKeeps(q, "", p, State(values, None));
    CountMarksPlain(p);
  }

  /** With the switch for HEAD a GET route without marks answers HEAD requests as well, unless HEAD has a route of its own. */
  lemma AddedServesHead(config: RouterConfig, b: Book, route: Route, p: string, h: Handler, values: seq<string>,
                        slots: seq<string>)
    requires EntriesOk(b.entries) && Registration(config, b.routes, route).Success?
    requires p == Normalize(route.path) && IsPlain(p)
    requires route.handler == Some(h) && route.verb == "GET" && config.autoHandleHead && |slots| == |values|
    requires !IsBoundIn(b.entries, p, "HEAD")
    ensures var q := RequestQuery(AddTo(config, b, route).entries, "HEAD", true);
            var o := Lookup(q, p, values);
            && Resolvable(o, slots)
            && Resolve(q, config.fallbacks, o, slots).handler == HeadOf(h)
  {
    var e := AddTo(config, b, route).entries;
    AddedIsBound(config, b, route, p);
    assert IsBoundIn(e, p, "HEAD") <==> IsBoundIn(b.entries, p, "HEAD");
    PlainPathIsServed(e, "HEAD", true, p, values);
    SearchKeeps(RequestQuery(e, "HEAD", true), "", p, State(values, None));
    CountMarksPlain(p);
  }
}
