/** What the router keeps true of its nodes and of the list of what is registered. */
module RouterState {
  import opened Wrappers
  import opened RoutePaths
  import opened RouteTable
  import opened RadixTree
  import opened RadixInsert
  import opened RadixRemove
  import opened RouteCursor
  import opened RouteCursorProofs
  import opened RouteTheorems

  /** The nodes are a well-formed tree, rooted at a slash, that stores `e`; `skel` are its spells. */
  ghost predicate Holds(root: Node, nodes: set<Node>, e: Entries, skel: set<string>)
    reads nodes
  {
    && root in nodes && root.prefix != "" && root.prefix[0] == '/'
    && WellFormed(Snapshot(nodes), root) && Represents(Snapshot(nodes), e) && Spells(Snapshot(nodes)) == skel
  }

  /** The set of nodes has grown by nodes that are new in the heap. */
  twostate predicate OnlyFresh(before: set<Node>, new after: set<Node>) {
    before <= after && forall o :: o in after ==> o in before || fresh(o)
  }

  datatype RouteInfo = RouteInfo(name: string, verb: string, path: string, params: seq<string>)

  /** A registration: `handler` is the handler with its middleware already around it. */
  datatype Route = Route(verb: string, path: string, name: string, handler: Option<Handler>, allowOverwrite: bool)

  datatype AddError = NoHandler | DuplicateRoute

  datatype RouterConfig = RouterConfig(fallbacks: Fallbacks, allowOverwritingRoute: bool, autoHandleHead: bool)

  function ToRouteInfo(route: Route, params: seq<string>): RouteInfo {
    RouteInfo(if route.name == "" then route.verb + ":" + route.path else route.name, route.verb, route.path, params)
  }

  /** The handler that is registered: two methods have a default for a missing one. */
  function EffectiveHandler(config: RouterConfig, route: Route): Option<Handler> {
    if route.handler.Some? then route.handler
    else if route.verb == ROUTE_NOT_FOUND then Some(config.fallbacks.notFound)
    else if route.verb == METHOD_OPTIONS then Some(config.fallbacks.options)
    else None
  }

  predicate IsListed(routes: seq<RouteInfo>, verb: string, path: string) {
    exists i :: 0 <= i < |routes| && routes[i].verb == verb && routes[i].path == path
  }

  /** What a registration binds under the shape of its path. */
  function Registered(config: RouterConfig, route: Route, h: Handler): RouteMethod {
    var path := Normalize(route.path);
    RouteMethod(route.verb, path, Names(path), route.name, h,
                if config.autoHandleHead && route.verb == METHOD_GET then Some(HeadOf(h)) else None)
  }

  function MaxParams(max: nat, rm: Option<RouteMethod>): nat {
    if rm.Some? && |rm.value.params| > max then |rm.value.params| else max
  }

  /** Every place in the index leads to a binding, except for what a removal may leave behind. */
  ghost predicate Covered(skeleton: set<string>, entries: Entries) {
    forall s :: s in skeleton ==> IsPlain(s) || exists k :: k in entries && s <= k
  }

  ghost predicate MarksBounded(entries: Entries, max: nat) {
    forall k :: k in entries ==> CountMarks(k) <= max
  }

  /** The tree is blank, or well formed and rooted at a slash; it stores `e`. */
  ghost predicate IsShaped(root: Node, nodes: set<Node>, e: Entries)
    reads nodes
  {
    && root in nodes
    && if root.prefix == "" then IsBlank(Snapshot(nodes), root) && e == map[]
       else WellFormed(Snapshot(nodes), root) && Represents(Snapshot(nodes), e) && root.prefix[0] == '/'
  }

  /** The shapes and shape prefixes that have a node. */
  ghost function SkeletonOf(root: Node, nodes: set<Node>): set<string>
    reads nodes
  {
    if root in nodes && root.prefix == "" then {} else Spells(Snapshot(nodes))
  }

  /** What holds between any two calls of the router. */
  ghost predicate RouterOk(root: Node, nodes: set<Node>, e: Entries, max: nat)
    reads nodes
  {
    IsShaped(root, nodes, e) && Covered(SkeletonOf(root, nodes), e) && MarksBounded(e, max) && EntriesOk(e)
  }

  /** All these places are on the way to one path. */
  predicate AllOnWay(added: set<string>, way: string) {
    forall s :: s in added ==> s <= way
  }

  /**
     Where the walk of an insertion ends: `k` bytes of the rest agree with the prefix of `cur`, above which `b` is spelled;
     if that is all of the prefix, the next byte leads to no child.
   */
  ghost predicate IsLocated(root: Node, nodes: set<Node>, cur: Node, path: string, search: string, k: nat, b: string)
    reads root, cur
  {
    && cur in nodes
    && if root.prefix == "" then cur == root && search == path && k == 0
       else
         && cur.spell == b + cur.prefix && path == b + search
         && k == CommonPrefixLength(search, cur.prefix) > 0
         && |cur.scLabels| == |cur.staticChildren|
         && (k == |cur.prefix| && k < |search| ==> ChildTowards(cur.View(), search[k]) == null)
  }

  /** The tree now stores `e`; the new places are on the way to the path, which is one of the places. */
  ghost predicate IsPlaced(root: Node, nodes: set<Node>, e: Entries, skel: set<string>, added: set<string>, path: string)
    reads nodes
  {
    Holds(root, nodes, e, skel + added) && path in skel + added && AllOnWay(added, path)
  }

  lemma JoinAdded(skel: set<string>, a: set<string>, b: set<string>, way: string, way': string)
    requires AllOnWay(a, way) && way <= way' && AllOnWay(b, way')
    ensures AllOnWay(a + b, way') && skel + a + b == skel + (a + b)
  {
  }

  /** How far the path has been read, or that its last mark has been inserted. */
  ghost predicate ReadSoFar(orig: string, path: string, i: nat, names: seq<string>, head: string, skel: set<string>,
                            wasAdded: bool) {
    && i <= |path|
    && (head != "" ==> head in skel)
    && (if wasAdded then names == Names(orig) else PathRead(orig, path, i, names, head))
  }

  /** Nothing is bound before the last piece; the last piece binds the route. */
  ghost predicate BoundSoFar(e0: Entries, e: Entries, max0: nat, max: nat, orig: string, rm: RouteMethod, wasAdded: bool) {
    if wasAdded then e == Bind(e0, Shape(orig), rm.verb, rm) && max >= max0 && max >= CountMarks(Shape(orig))
    else e == e0 && max == max0
  }

  /** The place up to which pieces have been inserted. */
  function WayOf(orig: string, path: string, i: nat, wasAdded: bool): string
    requires i <= |path|
  {
    if wasAdded then Shape(orig) else path[..i]
  }

  /** How far the registration of a path has come. */
  ghost predicate Inserting(orig: string, path: string, i: nat, names: seq<string>, head: string, skel: set<string>,
                            added: set<string>, wasAdded: bool, e0: Entries, e: Entries, max0: nat, max: nat, rm: RouteMethod) {
    && ReadSoFar(orig, path, i, names, head, skel + added, wasAdded)
    && AllOnWay(added, WayOf(orig, path, i, wasAdded))
    && BoundSoFar(e0, e, max0, max, orig, rm, wasAdded)
  }

  /** The rest of the path gets shorter, unless its last piece has been inserted; the way only gets longer. */
  ghost predicate Advances(orig: string, path: string, i: nat, path': string, i': nat, wasAdded: bool) {
    && i <= |path| && i' <= |path'| && |path'| - i' <= |path| - i
    && (!wasAdded ==> |path'| - i' < |path| - i)
    && path[..i] <= WayOf(orig, path', i', wasAdded)
  }

  /** The mark at `i` ends the path. */
  lemma MarkEnds(orig: string, path: string, i: nat, path': string, i': nat, names': seq<string>, head: string,
                 skel: set<string>, added: set<string>, e0: Entries, e: Entries, max0: nat, max: nat, rm: RouteMethod)
    requires i < |path| && i' <= |path'| && |path'| - i' <= |path| - i && Shape(orig) == path[..i + 1] && names' == Names(orig)
    requires (head != "" ==> head in skel) && AllOnWay(added, Shape(orig))
    requires e == Bind(e0, Shape(orig), rm.verb, rm) && max >= max0 && max >= CountMarks(Shape(orig))
    ensures Inserting(orig, path', i', names', head, skel, added, true, e0, e, max0, max, rm)
    ensures Advances(orig, path, i, path', i', true)
  {
    PrefixGrows(path, i, path, i + 1);
  }

  /** After the mark at `i`, of which the name has been cut out, comes a slash. */
  lemma MarkInside(orig: string, path: string, i: nat, path': string, names': seq<string>, skel: set<string>,
                   added: set<string>, e: Entries, max: nat, rm: RouteMethod)
    requires i + 2 <= |path'| <= |path| && path'[..i + 1] == path[..i + 1]
    requires PathRead(orig, path', i + 2, names', path'[..i + 1])
    requires path[..i + 1] in skel + added && AllOnWay(added, path[..i + 1])
    ensures Inserting(orig, path', i + 2, names', path'[..i + 1], skel, added, false, e, e, max, max, rm)
    ensures Advances(orig, path, i, path', i + 2, false)
  {
    PrefixGrows(path, i, path', i + 2);
    assert path'[..i + 1] <= path'[..i + 2];
  }

  lemma JoinInserting(orig: string, path: string, i: nat, path': string, i': nat, names': seq<string>, head': string,
                      skel: set<string>, before: set<string>, added: set<string>, wasAdded: bool, e0: Entries, e: Entries,
                      max0: nat, max: nat, rm: RouteMethod)
    requires i <= |path| && AllOnWay(before, path[..i]) && Advances(orig, path, i, path', i', wasAdded)
    requires Inserting(orig, path', i', names', head', skel + before, added, wasAdded, e0, e, max0, max, rm)
    ensures Inserting(orig, path', i', names', head', skel, before + added, wasAdded, e0, e, max0, max, rm)
    ensures skel + before + added == skel + (before + added)
  {
    JoinAdded(skel, before, added, path[..i], WayOf(orig, path', i', wasAdded));
  }

  lemma StartsInserting(orig: string, skel: set<string>, e: Entries, max: nat, rm: RouteMethod)
    requires orig != "" && orig[0] == '/'
    ensures Inserting(orig, orig, 0, [], "", skel, {}, false, e, e, max, max, rm) && skel + {} == skel
  {
    assert orig[..0] == "" && orig[0..] == orig && "" + Shape(orig) == Shape(orig) && [] + Names(orig) == Names(orig);
  }

  lemma ReadsToEnd(orig: string, path: string, i: nat, names: seq<string>, head: string, skel: set<string>,
                   added: set<string>, wasAdded: bool, e0: Entries, e: Entries, max0: nat, max: nat, rm: RouteMethod)
    requires Inserting(orig, path, i, names, head, skel, added, wasAdded, e0, e, max0, max, rm)
    requires i == |path| || wasAdded
    ensures Inserting(orig, path, |path|, names, head, skel, added, wasAdded, e0, e, max0, max, rm)
  {
  }

  /** With all of the path read, its static end is still to be inserted, unless a mark was the end. */
  lemma AtEnd(orig: string, path: string, names: seq<string>, head: string, skel: set<string>, added: set<string>,
              wasAdded: bool, e0: Entries, e: Entries, max0: nat, max: nat, rm: RouteMethod)
    requires Inserting(orig, path, |path|, names, head, skel, added, wasAdded, e0, e, max0, max, rm)
    ensures AllOnWay(added, if wasAdded then Shape(orig) else path)
  {
    assert path[..|path|] == path;
  }

  lemma ReadsPlain(orig: string, path: string, i: nat, names: seq<string>, head: string, skel: set<string>,
                   added: set<string>, e0: Entries, e: Entries, max0: nat, max: nat, rm: RouteMethod)
    requires Inserting(orig, path, i, names, head, skel, added, false, e0, e, max0, max, rm)
    requires i < |path| && !IsMark(path[i])
    ensures Inserting(orig, path, i + 1, names, head, skel, added, false, e0, e, max0, max, rm)
  {
    ReadPlain(orig, path, i, names, head);
    JoinAdded(skel, added, {}, path[..i], path[..i + 1]);
    assert added + {} == added;
  }

  /** The tree stores `e`, and `skel` are the places of its index. */
  ghost predicate Indexed(root: Node, nodes: set<Node>, e: Entries, skel: set<string>)
    reads nodes
  {
    IsShaped(root, nodes, e) && SkeletonOf(root, nodes) == skel
  }

  lemma HoldsIsIndexed(root: Node, nodes: set<Node>, e: Entries, skel: set<string>)
    requires Holds(root, nodes, e, skel)
    ensures Indexed(root, nodes, e, skel)
  {
  }

  function StoredRoutes(routes: seq<RouteInfo>, ri: RouteInfo): seq<RouteInfo> {
    if routes == [] then [ri]
    else if routes[0].verb == ri.verb && routes[0].path == ri.path then [ri] + routes[1..]
    else [routes[0]] + StoredRoutes(routes[1..], ri)
  }

  lemma {:induction false} StoredAt(routes: seq<RouteInfo>, ri: RouteInfo, i: nat)
    requires i < |routes| && routes[i].verb == ri.verb && routes[i].path == ri.path
    requires forall j :: 0 <= j < i ==> routes[j].verb != ri.verb || routes[j].path != ri.path
    ensures StoredRoutes(routes, ri) == routes[i := ri]
  {
    if i > 0 {
      StoredAt(routes[1..], ri, i - 1);
      assert [routes[0]] + routes[1..][i - 1 := ri] == routes[i := ri];
    }
  }

  lemma {:induction false} StoredAtEnd(routes: seq<RouteInfo>, ri: RouteInfo)
    requires forall j :: 0 <= j < |routes| ==> routes[j].verb != ri.verb || routes[j].path != ri.path
    ensures StoredRoutes(routes, ri) == routes + [ri]
  {
    if routes != [] {
      StoredAtEnd(routes[1..], ri);
      assert [routes[0]] + (routes[1..] + [ri]) == routes + [ri];
    }
  }

  /** Storing a listing keeps method and path pairs unique and lists the new one. */
  lemma {:induction false} StoringKeepsListed(routes: seq<RouteInfo>, ri: RouteInfo, verb: string, path: string)
    ensures IsListed(StoredRoutes(routes, ri), verb, path)
       <==> IsListed(routes, verb, path) || (verb == ri.verb && path == ri.path)
  {
    var stored := StoredRoutes(routes, ri);
    if routes == [] {
      assert stored[0] == ri;
    } else {
      var tail := if routes[0].verb == ri.verb && routes[0].path == ri.path then routes[1..]
                  else StoredRoutes(routes[1..], ri);
      StoringKeepsListed(routes[1..], ri, verb, path);
      assert stored == [stored[0]] + tail;
      ListedSplit(stored, verb, path);
      ListedSplit(routes, verb, path);
    }
  }

  lemma ListedSplit(routes: seq<RouteInfo>, verb: string, path: string)
    requires routes != []
    ensures IsListed(routes, verb, path)
       <==> (routes[0].verb == verb && routes[0].path == path) || IsListed(routes[1..], verb, path)
  {
    if IsListed(routes[1..], verb, path) {
      var i :| 0 <= i < |routes[1..]| && routes[1..][i].verb == verb && routes[1..][i].path == path;
      assert routes[i + 1] == routes[1..][i];
    }
    if IsListed(routes, verb, path) {
      var i :| 0 <= i < |routes| && routes[i].verb == verb && routes[i].path == path;
      assert i > 0 ==> routes[1..][i - 1] == routes[i];
    }
  }

  lemma StillCovered(skel: set<string>, added: set<string>, e: Entries, shape: string, verb: string, rm: RouteMethod)
    requires Covered(skel, e) && AllOnWay(added, shape)
    ensures Covered(skel + added, Bind(e, shape, verb, rm))
  {
    var e1 := Bind(e, shape, verb, rm);
    assert shape in e1;
    forall s | s in skel + added && !IsPlain(s) ensures exists k :: k in e1 && s <= k {
      if s in skel {
        var k :| k in e && s <= k;
        assert k in e1;
      }
    }
  }

  /** Every entry binds something, and a shape ends at its any mark. */
  ghost predicate EntriesOk(e: Entries) {
    && (forall s :: s in e ==> e[s].methods.bound != map[])
    && (forall s, i :: s in e && 0 <= i < |s| && s[i] == ANY_LABEL ==> i == |s| - 1)
  }

  lemma {:induction false} ShapeEndsAtAny(path: string, i: nat)
    requires i < |Shape(path)| && Shape(path)[i] == ANY_LABEL
    ensures i == |Shape(path)| - 1
    decreases |path|
  {
    if path[0] == PARAM_LABEL {
      ShapeEndsAtAny(path[1 + SegmentLength(path[1..])..], i - 1);
    } else if path[0] != ANY_LABEL {
      ShapeEndsAtAny(path[1..], i - 1);
    }
  }

  lemma BindKeepsEntriesOk(e: Entries, path: string, rm: RouteMethod)
    requires EntriesOk(e)
    ensures EntriesOk(Bind(e, Shape(path), rm.verb, rm))
  {
    var e1 := Bind(e, Shape(path), rm.verb, rm);
    assert rm.verb in e1[Shape(path)].methods.bound;
    forall s, i | s in e1 && 0 <= i < |s| && s[i] == ANY_LABEL ensures i == |s| - 1 {
      if s == Shape(path) {
        ShapeEndsAtAny(path, i);
      }
    }
  }

  /** The query that a request asks: what is bound, and nothing else. */
  function RequestQuery(e: Entries, verb: string, autoHead: bool): Query {
    Query(e.Keys, e, verb, autoHead)
  }

  /** What stays fixed during the search for a request. */
  ghost function RequestContext(root: Node, nodes: set<Node>, e: Entries, verb: string, autoHead: bool, path: string,
                                values: seq<string>): Context
    reads nodes
  {
    var q := Query(SkeletonOf(root, nodes), e, verb, autoHead);
    Context(Snapshot(nodes), root, q, path, Lookup(q, path, values), |values|)
  }

  /** The nodes that the search for a request enters, in their order. */
  ghost function VisitedNodes(root: Node, nodes: set<Node>, e: Entries, verb: string, autoHead: bool, path: string,
                              values: seq<string>): seq<Node>
    reads nodes
  {
    var x := RequestContext(root, nodes, e, verb, autoHead, path, values);
    [root] + Entered(x, Place(root, null, None, path, 0, 0, Enter, values))
  }

  lemma RequestIsProper(e: Entries, verb: string, autoHead: bool)
    requires EntriesOk(e)
    ensures Proper(RequestQuery(e, verb, autoHead))
  {
    var q := RequestQuery(e, verb, autoHead);
    forall s | s in q.skeleton ensures exists k :: k in q.entries && s <= k {
      assert s in q.entries && s <= s;
    }
  }

  /**
     The answer to a request reads what is bound, and nothing else. It is not-found exactly when nothing that is
     registered fits the path.
   */
  lemma AnswerReadsBindings(q: Query, path: string, values: seq<string>, fallbacks: Fallbacks, slots: seq<string>)
    requires Covers(q) && EntriesOk(q.entries) && Resolvable(Lookup(q, path, values), slots)
    ensures var bare, o := RequestQuery(q.entries, q.verb, q.autoHead), Lookup(q, path, values);
            && o == Lookup(bare, path, values)
            && Resolve(q, fallbacks, o, slots) == Resolve(bare, fallbacks, o, slots)
            && (Resolve(bare, fallbacks, o, slots).info == NotMatched <==> !SomeFits(bare, "", path))
  {
    SkeletonIrrelevant(q, "", path, State(values, None));
    RequestIsProper(q.entries, q.verb, q.autoHead);
    NotFoundIffNothingFits(RequestQuery(q.entries, q.verb, q.autoHead), path, values);
  }

  /** The tree and the query that it stores make a context for the search. */
  lemma TreeMakesContext(root: Node, nodes: set<Node>, e: Entries, skel: set<string>, max: nat, x: Context)
    requires Indexed(root, nodes, e, skel) && Covered(skel, e) && MarksBounded(e, max) && EntriesOk(e)
    requires x.g == Snapshot(nodes) && x.root == root && x.width >= max
    requires x.q.skeleton == skel && x.q.entries == e
    ensures ContextOk(x) || BlankContext(x)
    ensures Covers(x.q) && Bare(x.q) == RequestQuery(e, x.q.verb, x.q.autoHead)
  {
    if root.prefix != "" {
      forall n | n in x.g ensures CountMarks(x.g[n].spell) <= x.width {
        var s := x.g[n].spell;
        assert s in skel;
        if IsPlain(s) {
          CountMarksPlain(s);
        } else {
          var k :| k in e && s <= k;
          CountMarksPrefix(s, k);
        }
      }
    }
  }

  /** What the nodes of the outcome hold. */
  lemma OutcomeNodes(x: Context, p: Place)
    requires Searching(x, p) && p.next == Finished
    requires x.total.Hit? ==> IsBoundAt(x.q, x.total.shape, x.total.route)
    ensures FinishedOk(x, p) && |p.values| == x.width
    ensures x.total.Hit? ==>
              && p.node in x.g && p.matched == Some(x.total.route)
              && x.g[p.node].paramsCount == CountMarks(x.total.shape) == |x.total.route.params| <= x.width
    ensures p.best != null ==>
              && p.best in x.g && x.g[p.best].paramsCount == CountMarks(x.g[p.best].spell) <= x.width
              && x.q.At(x.g[p.best].spell) == Entry(x.g[p.best].methods, x.g[p.best].originalPath)
              && (x.g[p.best].methods.NotFound().Some? ==>
                    |x.g[p.best].methods.NotFound().value.params| == x.g[p.best].paramsCount)
              && (x.g[p.best].methods.NotFound().None? ==> x.g[p.best].isHandler)
  {
    SearchEnds(x, p);
    if p.best != null {
      assert NodeOk(x.g, x.root, p.best) && Agrees(x.g, x.q.entries, p.best);
      var m :| m in x.g[p.best].methods.bound;
    }
    if x.total.Hit? {
      assert NodeOk(x.g, x.root, p.node) && Agrees(x.g, x.q.entries, p.node);
    }
  }

  // ---------------------------------------------------------------------------
  // Removal.

  /** `SliceOutOfRange` is the panic of cutting the first listing out of an empty list. */
  datatype RemoveError = NoRoutes | NoSuchPath | NoSuchMethod | SliceOutOfRange

  /** The methods that have a field of their own in a node; any other is kept in a map. */
  const BUILT_IN_METHODS := {
    "CONNECT", METHOD_GET, "DELETE", METHOD_HEAD, METHOD_OPTIONS, "PATCH", "POST", "PROPFIND", "PUT", "TRACE", "REPORT",
    "QUERY", ROUTE_ANY, ROUTE_NOT_FOUND
  }

  /** The tree stores `e`, and its places are among `skel`. */
  ghost predicate Prunes(root: Node, nodes: set<Node>, e: Entries, skel: set<string>)
    reads nodes
  {
    && root in nodes && root.prefix != "" && root.prefix[0] == '/'
    && WellFormed(Snapshot(nodes), root) && Represents(Snapshot(nodes), e) && Spells(Snapshot(nodes)) <= skel
  }

  /** A tree that is one leaf without a handler binds nothing. */
  lemma NothingAtAll(root: Node, nodes: set<Node>, e: Entries)
    requires IsShaped(root, nodes, e) && NoNotFound(e) && root.isLeaf && !root.isHandler
    ensures e == map[]
  {
    if root.prefix != "" {
      var g := Snapshot(nodes);
      assert g[root] == root.View();
      LeafIsEnd(g, root, root);
      HandlesIffBound(g, root, e, root);
      assert Agrees(g, e, root);
      forall s | s in e ensures false {
        var m := Spelled(g, s);
        AllUnderRoot(g, root, m);
        UnderSpells(g, root, root, m);
      }
    }
  }

  /** The first listing with this method and path; the very first one when there is none. */
  function ListIndex(routes: seq<RouteInfo>, verb: string, path: string): (i: nat)
    ensures IsListed(routes, verb, path) ==>
              && i < |routes| && routes[i].verb == verb && routes[i].path == path
              && forall j :: 0 <= j < i ==> routes[j].verb != verb || routes[j].path != path
    ensures !IsListed(routes, verb, path) ==> i == 0
  {
    if !IsListed(routes, verb, path) then 0
    else if routes[0].verb == verb && routes[0].path == path then 0
    else
      assert routes == [routes[0]] + routes[1..];
      ListedSplit(routes, verb, path);
      1 + ListIndex(routes[1..], verb, path)
  }

  function Unlisted(routes: seq<RouteInfo>, verb: string, path: string): seq<RouteInfo> {
    Without(routes, ListIndex(routes, verb, path))
  }

  ghost predicate ListsOnce(routes: seq<RouteInfo>) {
    forall i, j :: 0 <= i < j < |routes| ==> routes[i].verb != routes[j].verb || routes[i].path != routes[j].path
  }

  /** For paths without marks, the list and the tree say the same. */
  ghost predicate Listed(routes: seq<RouteInfo>, e: Entries) {
    && ListsOnce(routes)
    && forall s, v :: IsPlain(s) ==> (IsListed(routes, v, s) <==> IsBoundIn(e, s, v))
  }

  lemma {:induction false} StoringListsOnce(routes: seq<RouteInfo>, ri: RouteInfo)
    requires ListsOnce(routes)
    ensures ListsOnce(StoredRoutes(routes, ri))
  {
    if IsListed(routes, ri.verb, ri.path) {
      StoredAt(routes, ri, ListIndex(routes, ri.verb, ri.path));
    } else {
      StoredAtEnd(routes, ri);
    }
  }

  /** Registering a path that starts with a slash keeps the list in step with the tree. */
  lemma AddKeepsListed(routes: seq<RouteInfo>, e: Entries, ri: RouteInfo, rm: RouteMethod)
    requires Listed(routes, e) && rm.verb == ri.verb
    ensures Listed(StoredRoutes(routes, ri), Bind(e, Shape(ri.path), ri.verb, rm))
  {
    var e1 := Bind(e, Shape(ri.path), ri.verb, rm);
    StoringListsOnce(routes, ri);
    forall s, v | IsPlain(s) ensures IsListed(StoredRoutes(routes, ri), v, s) <==> IsBoundIn(e1, s, v) {
      StoringKeepsListed(routes, ri, v, s);
      if s == ri.path {
        ShapeOfPlain(s);
      }
      if s == Shape(ri.path) {
        PlainShape(ri.path);
      }
    }
  }

  /** Removing a listed route keeps the list in step with the tree. */
  lemma RemoveKeepsListed(routes: seq<RouteInfo>, e: Entries, verb: string, path: string)
    requires Listed(routes, e) && IsPlain(path) && IsBoundIn(e, path, verb)
    ensures Listed(Unlisted(routes, verb, path), Unbind(e, path, verb))
  {
    UnlistingListsOnce(routes, verb, path);
    assert IsListed(routes, verb, path);
    forall s, v | IsPlain(s)
      ensures IsListed(Unlisted(routes, verb, path), v, s) <==> IsBoundIn(Unbind(e, path, verb), s, v)
    {
      assert IsListed(routes, v, s) <==> IsBoundIn(e, s, v);
      UnlistsOne(routes, verb, path, v, s);
      UnbindsOne(e, path, verb, s, v);
    }
  }

  lemma UnlistingListsOnce(routes: seq<RouteInfo>, verb: string, path: string)
    requires ListsOnce(routes)
    ensures ListsOnce(Unlisted(routes, verb, path))
  {
    var i, after := ListIndex(routes, verb, path), Unlisted(routes, verb, path);
    assert i < |routes| ==> forall j :: 0 <= j < |after| ==> after[j] == routes[if j < i then j else j + 1];
  }

  predicate IsFirst(routes: seq<RouteInfo>, verb: string, path: string) {
    routes != [] && routes[0].verb == verb && routes[0].path == path
  }

  /** A listing goes if it is that of the path looked up, or the very first one when that path is not listed. */
  predicate Goes(routes: seq<RouteInfo>, verb: string, path: string, v: string, own: string) {
    if IsListed(routes, verb, path) then v == verb && own == path
    else IsFirst(routes, v, own)
  }

  lemma UnlistsOne(routes: seq<RouteInfo>, verb: string, path: string, v: string, own: string)
    requires ListsOnce(routes)
    ensures IsListed(Unlisted(routes, verb, path), v, own)
       <==> IsListed(routes, v, own) && !Goes(routes, verb, path, v, own)
  {
    var i, after := ListIndex(routes, verb, path), Unlisted(routes, verb, path);
    if routes != [] {
      assert forall j :: 0 <= j < |after| ==> after[j] == routes[if j < i then j else j + 1];
      if IsListed(after, v, own) {
        var j :| 0 <= j < |after| && after[j].verb == v && after[j].path == own;
        var k := if j < i then j else j + 1;
        assert routes[k] == after[j] && k != i;
      }
      if IsListed(routes, v, own) && !Goes(routes, verb, path, v, own) {
        var j :| 0 <= j < |routes| && routes[j].verb == v && routes[j].path == own;
        assert after[if j < i then j else j - 1] == routes[j];
      }
    }
  }

  lemma UnlistsEach(routes: seq<RouteInfo>, verb: string, path: string)
    requires ListsOnce(routes)
    ensures forall v, own :: IsListed(Unlisted(routes, verb, path), v, own)
                        <==> IsListed(routes, v, own) && !Goes(routes, verb, path, v, own)
  {
    forall v, own
      ensures IsListed(Unlisted(routes, verb, path), v, own)
         <==> IsListed(routes, v, own) && !Goes(routes, verb, path, v, own)
    {
      UnlistsOne(routes, verb, path, v, own);
    }
  }

  // ---------------------------------------------------------------------------
  // What the calls make of the list and of what is registered.

  datatype Book = Book(routes: seq<RouteInfo>, entries: Entries)

  /** The result of a registration. */
  function Registration(config: RouterConfig, routes: seq<RouteInfo>, route: Route): Result<RouteInfo, AddError> {
    if EffectiveHandler(config, route).None? then Failure(NoHandler)
    else if !(config.allowOverwritingRoute || route.allowOverwrite) && IsListed(routes, route.verb, route.path) then
      Failure(DuplicateRoute)
    else Success(ToRouteInfo(route, Names(Normalize(route.path))))
  }

  /** What a registration that succeeds binds. */
  function Bound(config: RouterConfig, route: Route): RouteMethod
    requires EffectiveHandler(config, route).Some?
  {
    Registered(config, route, EffectiveHandler(config, route).value)
  }

  function AddTo(config: RouterConfig, b: Book, route: Route): Book {
    match Registration(config, b.routes, route)
    case Failure(_) => b
    case Success(ri) =>
      Book(StoredRoutes(b.routes, ri),
           Bind(b.entries, Shape(Normalize(route.path)), route.verb, Bound(config, route)))
  }

  /** With an empty list the removal stops after it has unset the handler. */
  function RemoveFrom(b: Book, verb: string, path: string): Book {
    var p := Normalize(path);
    if !IsBoundIn(b.entries, p, verb) then b
    else Book(if b.routes == [] then [] else Unlisted(b.routes, verb, p), Unbind(b.entries, p, verb))
  }

  /**
     A removal that finds its route takes that route's own listing off the list exactly when the route was registered
     under its normalised path, unless the listing that goes in its stead happens to be the first and the route's own.
     The listing of another route goes exactly in that other case.
   */
  lemma RemovesOwnListing(b: Book, verb: string, path: string, own: string)
    requires ListsOnce(b.routes) && IsListed(b.routes, verb, own) && Normalize(own) == Normalize(path)
    requires IsBoundIn(b.entries, Normalize(path), verb)
    ensures var after := RemoveFrom(b, verb, path).routes;
            && (!IsListed(after, verb, own) <==>
                  own == Normalize(own) || (!IsListed(b.routes, verb, Normalize(path)) && IsFirst(b.routes, verb, own)))
            && (forall v, other :: IsListed(b.routes, v, other) && (v != verb || Normalize(other) != Normalize(path)) ==>
                  (!IsListed(after, v, other) <==> !IsListed(b.routes, verb, Normalize(path)) && IsFirst(b.routes, v, other)))
  {
    assert b.routes != [];
    UnlistsEach(b.routes, verb, Normalize(path));
  }

  /**
     A route registered without its slash is listed without it. Its removal drops the listing of another route, which
     stays bound, and keeps its own, so that it counts as a duplicate from then on. Registered again by overwriting, and
     removed again, it leaves the list empty, and the other route cannot be removed cleanly any more.
   */
  lemma UnslashedRouteIsMislisted(config: RouterConfig, h: Handler)
    ensures var a, b := Route(METHOD_GET, "/a", "", Some(h), true), Route(METHOD_GET, "b", "", Some(h), true);
            var both := AddTo(config, AddTo(config, Book([], map[]), a), b);
            var once := RemoveFrom(both, METHOD_GET, "b");
            var twice := RemoveFrom(AddTo(config, once, b), METHOD_GET, "b");
            && IsBoundIn(both.entries, "/a", METHOD_GET) && IsBoundIn(both.entries, "/b", METHOD_GET)
            && both.routes == [ToRouteInfo(a, []), ToRouteInfo(b, [])]
            && IsBoundIn(once.entries, "/a", METHOD_GET) && !IsBoundIn(once.entries, "/b", METHOD_GET)
            && once.routes == [ToRouteInfo(b, [])]
            && (!config.allowOverwritingRoute ==>
                  Registration(config, once.routes, b.(allowOverwrite := false)) == Failure(DuplicateRoute))
            && IsBoundIn(twice.entries, "/a", METHOD_GET) && twice.routes == []
  {
    var a, b := Route(METHOD_GET, "/a", "", Some(h), true), Route(METHOD_GET, "b", "", Some(h), true);
    var both := AddTo(config, AddTo(config, Book([], map[]), a), b);
    AddsBoth(config, a, b, h);
    DropsFirst(both, [ToRouteInfo(a, []), ToRouteInfo(b, [])]);
    var once := RemoveFrom(both, METHOD_GET, "b");
    assert once.routes == [ToRouteInfo(b, [])] && once.routes[0].path == "b";
    AddsAgain(config, once, b, h);
    DropsFirst(AddTo(config, once, b), [ToRouteInfo(b, [])]);
  }

  /** The list is this one, none of it is "/b", and "/a" is bound; whether "/b" is, is told. */
  ghost predicate Holding(b: Book, routes: seq<RouteInfo>, isBound: bool) {
    && b.routes == routes && !IsListed(routes, METHOD_GET, "/b")
    && IsBoundIn(b.entries, "/a", METHOD_GET) && (IsBoundIn(b.entries, "/b", METHOD_GET) <==> isBound)
  }

  lemma AddsBoth(config: RouterConfig, a: Route, b: Route, h: Handler)
    requires a == Route(METHOD_GET, "/a", "", Some(h), true) && b == Route(METHOD_GET, "b", "", Some(h), true)
    ensures Holding(AddTo(config, AddTo(config, Book([], map[]), a), b), [ToRouteInfo(a, []), ToRouteInfo(b, [])], true)
  {
    var ra, rb := ToRouteInfo(a, []), ToRouteInfo(b, []);
    PlainNames();
    AddsPlain(config, Book([], map[]), a, h);
    AddsPlain(config, AddTo(config, Book([], map[]), a), b, h);
    assert ra.path[1] == 'a' && "/b"[1] == 'b' && rb.path[0] == 'b';
    assert [ra][1..] == [] && StoredRoutes([ra], rb) == [ra] + StoredRoutes([], rb);
  }

  lemma AddsAgain(config: RouterConfig, book: Book, b: Route, h: Handler)
    requires b == Route(METHOD_GET, "b", "", Some(h), true) && Holding(book, [ToRouteInfo(b, [])], false)
    ensures Holding(AddTo(config, book, b), [ToRouteInfo(b, [])], true)
  {
    PlainNames();
    AddsPlain(config, book, b, h);
    assert StoredRoutes([ToRouteInfo(b, [])], ToRouteInfo(b, [])) == [ToRouteInfo(b, [])];
  }

  /** Removing "b", whose path is not listed, drops the first listing. */
  lemma DropsFirst(b: Book, routes: seq<RouteInfo>)
    requires Holding(b, routes, true) && routes != []
    ensures Holding(RemoveFrom(b, METHOD_GET, "b"), routes[1..], false)
  {
    PlainNames();
    assert "/a"[1] == 'a' && "/b"[1] == 'b';
    UnbindsOne(b.entries, "/b", METHOD_GET, "/a", METHOD_GET);
    UnbindsOne(b.entries, "/b", METHOD_GET, "/b", METHOD_GET);
    assert !IsListed(routes[1..], METHOD_GET, "/b") by {
      ListedSplit(routes, METHOD_GET, "/b");
    }
  }

  lemma AddsPlain(config: RouterConfig, b: Book, route: Route, h: Handler)
    requires route.handler == Some(h) && route.allowOverwrite
    requires Shape(Normalize(route.path)) == Normalize(route.path) && Names(Normalize(route.path)) == []
    ensures var after := AddTo(config, b, route);
            && after.routes == StoredRoutes(b.routes, ToRouteInfo(route, []))
            && IsBoundIn(after.entries, Normalize(route.path), route.verb)
            && forall s, v :: IsBoundIn(b.entries, s, v) ==> IsBoundIn(after.entries, s, v)
  {
  }

  lemma PlainNames()
    ensures Normalize("/a") == "/a" && Shape("/a") == "/a" && Names("/a") == []
    ensures Normalize("b") == "/b" && Shape("/b") == "/b" && Names("/b") == []
  {
    ShapeOfPlain("/a");
    ShapeOfPlain("/b");
    assert "/a"[1..] == "a" && "/b"[1..] == "b" && "a"[1..] == "" && "b"[1..] == "";
    assert "/" + "b" == "/b";
  }

  lemma UnbindKeepsEntriesOk(e: Entries, path: string, verb: string, max: nat)
    requires EntriesOk(e) && MarksBounded(e, max)
    ensures EntriesOk(Unbind(e, path, verb)) && MarksBounded(Unbind(e, path, verb), max)
  {
    var e1 := Unbind(e, path, verb);
    assert forall s :: s in e1 ==> s in e;
  }

  lemma UnbindKeepsNoNotFound(e: Entries, path: string, verb: string)
    requires NoNotFound(e)
    ensures NoNotFound(Unbind(e, path, verb))
  {
  }

  /** A removal without marks leaves only plain places without a binding. */
  lemma UnbindKeepsCovered(skel: set<string>, skel1: set<string>, e: Entries, path: string, verb: string)
    requires Covered(skel, e) && skel1 <= skel && IsPlain(path)
    ensures Covered(skel1, Unbind(e, path, verb))
  {
    forall s | s in skel1 && !IsPlain(s) ensures exists k :: k in Unbind(e, path, verb) && s <= k {
      var k :| k in e && s <= k;
      if k == path {
        PlainPrefix(s, path);
      }
      assert k in Unbind(e, path, verb);
    }
  }

  lemma RemovedOk(root: Node, nodes: set<Node>, e: Entries, path: string, verb: string, max: nat, skel: set<string>)
    requires Prunes(root, nodes, Unbind(e, path, verb), skel) && IsPlain(path)
    requires Covered(skel, e) && MarksBounded(e, max) && EntriesOk(e)
    ensures RouterOk(root, nodes, Unbind(e, path, verb), max)
  {
    UnbindKeepsCovered(skel, SkeletonOf(root, nodes), e, path, verb);
    UnbindKeepsEntriesOk(e, path, verb, max);
  }
}
