/**
 The value side of routing. An entry is what is registered for one shape; a query is a set of
 entries together with the request method. `Search` is the reference reading of a query: it walks
 the shapes byte by byte, static before parameter before any.
 */
module RouteTable {
  import opened Wrappers
  import opened RoutePaths

  const METHOD_GET := "GET"
  const METHOD_HEAD := "HEAD"
  const METHOD_OPTIONS := "OPTIONS"
  const ROUTE_ANY := "echo_route_any"
  const ROUTE_NOT_FOUND := "echo_route_not_found"

  /** A handler function, known by what it is and not by what it does. */
  datatype Handler =
    | User(id: nat)
    | HeadOf(get: Handler)
    | DefaultNotFound
    | DefaultMethodNotAllowed
    | DefaultOptions

  datatype RouteMethod = RouteMethod(
    verb: string,
    path: string,
    params: seq<string>,
    name: string,
    handler: Handler,
    headHandler: Option<Handler>)

  /** The handlers of one node, by method; ROUTE_NOT_FOUND is a key like the others. */
  datatype MethodTable = MethodTable(bound: map<string, RouteMethod>) {
    function Get(verb: string): Option<RouteMethod> {
      if verb in bound then Some(bound[verb]) else None
    }

    function Set(verb: string, r: Option<RouteMethod>): MethodTable {
      MethodTable(if r.Some? then bound[verb := r.value] else bound - {verb})
    }

    function NotFound(): Option<RouteMethod> {
      Get(ROUTE_NOT_FOUND)
    }

    /** A not-found route is not a handler. */
    predicate IsHandler() {
      exists m :: m in bound && m != ROUTE_NOT_FOUND
    }

    function Find(verb: string, fallbackToAny: bool, autoHandleHead: bool): Option<RouteMethod> {
      var own := Get(verb);
      var r := if verb == METHOD_HEAD && autoHandleHead && own.None? then Get(METHOD_GET) else own;
      if r.Some? || !fallbackToAny then r else Get(ROUTE_ANY)
    }
  }

  const NoMethods := MethodTable(map[])

  /** What is stored for one shape; `lastPath` is the path of the latest registration. */
  datatype Entry = Entry(methods: MethodTable, lastPath: string)

  /** `skeleton` is the set of shapes and shape prefixes that have a place in the index. */
  datatype Query = Query(skeleton: set<string>, entries: map<string, Entry>, verb: string, autoHead: bool) {
    function At(shape: string): Entry {
      if shape in entries then entries[shape] else Entry(NoMethods, "")
    }
  }

  /** The bytes `pre` lead somewhere in the index. */
  ghost predicate Live(skeleton: set<string>, pre: string) {
    exists s :: s in skeleton && pre <= s
  }

  /** Nothing in the index goes on after `pre`. */
  ghost predicate IsEnd(skeleton: set<string>, pre: string) {
    forall s :: s in skeleton && pre <= s ==> s == pre
  }

  ghost function Height(skeleton: set<string>): (h: nat)
    ensures forall s :: s in skeleton ==> |s| <= h
  {
    if skeleton == {} then 0
    else
      var s :| s in skeleton;
      var h := Height(skeleton - {s});
      assert forall t :: t in skeleton ==> t == s || t in skeleton - {s};
      if |s| <= h then h else |s|
  }

  /** How much of `rest` a parameter at `pre` takes: all of it when nothing follows the parameter. */
  ghost function TakeLength(skeleton: set<string>, pre: string, rest: string): (n: nat)
    ensures n <= |rest|
  {
    if IsEnd(skeleton, pre + [PARAM_LABEL]) then |rest| else SegmentLength(rest)
  }

  /** The path values found so far and the first shape that fits the path but not the method. */
  datatype State = State(values: seq<string>, best: Option<string>)

  datatype Outcome =
    | Hit(shape: string, route: RouteMethod, st: State)
    | Stop(st: State)
    | Miss(st: State)

  function Put(values: seq<string>, k: nat, v: string): (r: seq<string>)
    ensures |r| == |values|
  {
    if k < |values| then values[k := v] else values
  }

  function Remember(st: State, shape: string): State {
    if st.best.None? then st.(best := Some(shape)) else st
  }

  /** Everything below `pre`, where the bytes before `rest` have been read as `pre`. */
  ghost function Search(q: Query, pre: string, rest: string, st: State): (o: Outcome)
    decreases Height(q.skeleton) - |pre|, 3
  {
    var m := q.At(pre).methods;
    if rest == "" && m.IsHandler() then
      var found := m.Find(q.verb, true, q.autoHead);
      if found.Some? then Hit(pre, found.value, Remember(st, pre)) else Below(q, pre, rest, Remember(st, pre))
    else if rest == "" && m.NotFound().Some? then Hit(pre, m.NotFound().value, st)
    else Below(q, pre, rest, st)
  }

  ghost predicate HasStatic(q: Query, pre: string, rest: string) {
    rest != "" && !IsMark(rest[0]) && Live(q.skeleton, pre + [rest[0]])
  }

  ghost predicate HasParam(q: Query, pre: string, rest: string) {
    rest != "" && Live(q.skeleton, pre + [PARAM_LABEL])
  }

  ghost predicate HasAny(q: Query, pre: string) {
    Live(q.skeleton, pre + [ANY_LABEL])
  }

  ghost function Below(q: Query, pre: string, rest: string, st: State): Outcome
    decreases Height(q.skeleton) - |pre|, 2
  {
    if HasStatic(q, pre, rest) then
      var o := Search(q, pre + [rest[0]], rest[1..], st);
      if o.Miss? then FromParam(q, pre, rest, o.st) else o
    else
      FromParam(q, pre, rest, st)
  }

  ghost function FromParam(q: Query, pre: string, rest: string, st: State): Outcome
    decreases Height(q.skeleton) - |pre|, 1
  {
    if HasParam(q, pre, rest) then
      var k, n := CountMarks(pre), TakeLength(q.skeleton, pre, rest);
      var o := Search(q, pre + [PARAM_LABEL], rest[n..], st.(values := Put(st.values, k, rest[..n])));
      if o.Miss? then FromAny(q, pre, rest, o.st.(values := Put(o.st.values, k, ""))) else o
    else
      FromAny(q, pre, rest, st)
  }

  /** An any shape takes the whole rest and ends the search, with or without a handler for the method. */
  ghost function FromAny(q: Query, pre: string, rest: string, st: State): Outcome {
    if HasAny(q, pre) then
      var k, shape := CountMarks(pre), pre + [ANY_LABEL];
      var m := q.At(shape).methods;
      var taken := st.(values := Put(st.values, k, rest));
      var found := m.Find(q.verb, true, q.autoHead);
      if found.Some? then Hit(shape, found.value, taken)
      else if m.NotFound().Some? then Hit(shape, m.NotFound().value, Remember(taken, shape))
      else Stop(Remember(st, shape).(values := Put(st.values, k, "")))
    else
      Miss(st)
  }

  ghost function Lookup(q: Query, path: string, values: seq<string>): Outcome {
    Search(q, "", path, State(values, None))
  }

  /**
   What is still to be done when the work below `pre` has ended with `o`: after a miss, the
   alternatives that were passed over on the way from the root to `pre`, innermost first.
   */
  ghost function Unwind(q: Query, pre: string, rest: string, o: Outcome): Outcome
    decreases |pre|
  {
    if !o.Miss? || pre == "" then o
    else
      var up, c := pre[..|pre| - 1], pre[|pre| - 1];
      if c == ANY_LABEL then o
      else if c == PARAM_LABEL then
        var k := CountMarks(up);
        var rest' := (if k < |o.st.values| then o.st.values[k] else "") + rest;
        Unwind(q, up, rest', FromAny(q, up, rest', o.st.(values := Put(o.st.values, k, ""))))
      else
        Unwind(q, up, [c] + rest, FromParam(q, up, [c] + rest, o.st))
  }

  /** A shape with the path values put back in the place of its marks. */
  function Fill(shape: string, values: seq<string>): string {
    if shape == "" then ""
    else
      var up, c := shape[..|shape| - 1], shape[|shape| - 1];
      Fill(up, values) + if !IsMark(c) then [c] else if CountMarks(up) < |values| then values[CountMarks(up)] else ""
  }

  lemma {:induction false} FillPlain(b: string, p: string, values: seq<string>)
    requires IsPlain(p)
    ensures Fill(b + p, values) == Fill(b, values) + p && CountMarks(b + p) == CountMarks(b)
    decreases |p|
  {
    if p == "" {
      assert b + p == b;
    } else {
      var p', c := p[..|p| - 1], p[|p| - 1];
      FillPlain(b, p', values);
      assert (b + p)[..|b + p| - 1] == b + p';
      assert Fill(b + p, values) == Fill(b + p', values) + [c];
      assert p' + [c] == p;
    }
  }

  lemma FillMark(b: string, c: char, values: seq<string>)
    requires IsMark(c) && CountMarks(b) < |values|
    ensures Fill(b + [c], values) == Fill(b, values) + values[CountMarks(b)]
    ensures CountMarks(b + [c]) == CountMarks(b) + 1
  {
    assert (b + [c])[..|b + [c]| - 1] == b;
  }

  /** Filling a shape reads one value for each of its marks. */
  lemma {:induction false} FillFrame(b: string, values: seq<string>, values': seq<string>)
    requires |values| == |values'| && forall i :: 0 <= i < CountMarks(b) && i < |values| ==> values[i] == values'[i]
    ensures Fill(b, values) == Fill(b, values')
  {
    if b != "" {
      FillFrame(b[..|b| - 1], values, values');
    }
  }

  datatype PathValue = PathValue(name: string, value: string)

  datatype MatchInfo = Matched(route: RouteMethod) | NotMatched | MethodNotAllowed

  /** What routing puts into the request context. */
  datatype RouteResult = RouteResult(handler: Handler, info: MatchInfo, path: string, values: seq<PathValue>)

  /** The handlers that the router falls back on. */
  datatype Fallbacks = Fallbacks(notFound: Handler, methodNotAllowed: Handler, options: Handler)

  /** The first `n` values; names are those of the matched route, or what the slots already held. */
  function Bindings(slots: seq<string>, values: seq<string>, n: nat, names: seq<string>): seq<PathValue>
    requires n <= |slots| == |values|
  {
    seq(n, i requires 0 <= i < n => PathValue(if i < |names| then names[i] else slots[i], values[i]))
  }

  ghost predicate Resolvable(o: Outcome, slots: seq<string>) {
    && |o.st.values| == |slots|
    && (o.Hit? ==> CountMarks(o.shape) <= |slots|)
    && (!o.Hit? && o.st.best.Some? ==> CountMarks(o.st.best.value) <= |slots|)
  }

  /** The answer to the request once the search is over. */
  ghost function Resolve(q: Query, fallbacks: Fallbacks, o: Outcome, slots: seq<string>): RouteResult
    requires Resolvable(o, slots)
  {
    if o.Hit? then
      var h := if q.verb == METHOD_HEAD && o.route.headHandler.Some? then o.route.headHandler.value else o.route.handler;
      RouteResult(h, Matched(o.route), o.route.path, Bindings(slots, o.st.values, CountMarks(o.shape), o.route.params))
    else if o.st.best.None? then
      RouteResult(fallbacks.notFound, NotMatched, "", [])
    else
      var shape := o.st.best.value;
      var e := q.At(shape);
      var n := CountMarks(shape);
      match e.methods.NotFound()
      case Some(r) => RouteResult(r.handler, Matched(r), r.path, Bindings(slots, o.st.values, n, r.params))
      case None =>
        var h := if q.verb == METHOD_OPTIONS then fallbacks.options else fallbacks.methodNotAllowed;
        RouteResult(h, MethodNotAllowed, e.lastPath, Bindings(slots, o.st.values, n, []))
  }

  // ---------------------------------------------------------------------------
  // Frame: what a search can change.

  /** Below `pre`, only the values of later marks change. */
  ghost predicate Keeps(pre: string, before: State, after: State) {
    && |after.values| == |before.values|
    && (forall i :: 0 <= i < CountMarks(pre) && i < |before.values| ==> after.values[i] == before.values[i])
    && (before.best.Some? ==> after.best == before.best)
  }

  lemma CountMarksSnoc(pre: string, c: char)
    ensures CountMarks(pre + [c]) == CountMarks(pre) + if IsMark(c) then 1 else 0
  {
    assert (pre + [c])[..|pre + [c]| - 1] == pre;
  }

  lemma {:induction false} SearchKeeps(q: Query, pre: string, rest: string, st: State)
    ensures Keeps(pre, st, Search(q, pre, rest, st).st)
    decreases Height(q.skeleton) - |pre|, 3
  {
    BelowKeeps(q, pre, rest, st);
    BelowKeeps(q, pre, rest, Remember(st, pre));
  }

  lemma {:induction false} BelowKeeps(q: Query, pre: string, rest: string, st: State)
    ensures Keeps(pre, st, Below(q, pre, rest, st).st)
    decreases Height(q.skeleton) - |pre|, 2
  {
    if HasStatic(q, pre, rest) {
      CountMarksSnoc(pre, rest[0]);
      SearchKeeps(q, pre + [rest[0]], rest[1..], st);
      FromParamKeeps(q, pre, rest, Search(q, pre + [rest[0]], rest[1..], st).st);
    } else {
      FromParamKeeps(q, pre, rest, st);
    }
  }

  lemma {:induction false} FromParamKeeps(q: Query, pre: string, rest: string, st: State)
    ensures Keeps(pre, st, FromParam(q, pre, rest, st).st)
    decreases Height(q.skeleton) - |pre|, 1
  {
    if HasParam(q, pre, rest) {
      var k, n := CountMarks(pre), TakeLength(q.skeleton, pre, rest);
      CountMarksSnoc(pre, PARAM_LABEL);
      SearchKeeps(q, pre + [PARAM_LABEL], rest[n..], st.(values := Put(st.values, k, rest[..n])));
    }
  }

  // ---------------------------------------------------------------------------
  // Steps of the search, as equations on what is still to be done.

  /** Reading one static byte. */
  lemma StaticStep(q: Query, pre: string, rest: string, st: State)
    requires HasStatic(q, pre, rest)
    ensures Unwind(q, pre, rest, Below(q, pre, rest, st))
         == Unwind(q, pre + [rest[0]], rest[1..], Search(q, pre + [rest[0]], rest[1..], st))
  {
    var next := pre + [rest[0]];
    assert next[..|next| - 1] == pre;
    assert [rest[0]] + rest[1..] == rest;
  }

  lemma StaticReturn(q: Query, pre: string, c: char, rest: string, st: State)
    requires !IsMark(c)
    ensures Unwind(q, pre + [c], rest, Miss(st)) == Unwind(q, pre, [c] + rest, FromParam(q, pre, [c] + rest, st))
  {
    var next := pre + [c];
    assert next[..|next| - 1] == pre;
  }

  /** Entering a parameter: on a miss its value is put back in front of the rest. */
  lemma ParamStep(q: Query, pre: string, rest: string, st: State, n: nat, st': State)
    requires HasParam(q, pre, rest)
    requires CountMarks(pre) < |st.values|
    requires n == TakeLength(q.skeleton, pre, rest)
    requires st' == st.(values := st.values[CountMarks(pre) := rest[..n]])
    ensures Unwind(q, pre, rest, FromParam(q, pre, rest, st))
         == Unwind(q, pre + [PARAM_LABEL], rest[n..], Search(q, pre + [PARAM_LABEL], rest[n..], st'))
  {
    var next := pre + [PARAM_LABEL];
    assert next[..|next| - 1] == pre;
    CountMarksSnoc(pre, PARAM_LABEL);
    SearchKeeps(q, next, rest[n..], st');
    assert rest[..n] + rest[n..] == rest;
  }

  /** `p` is a stretch of static bytes after `b` along which nothing else branches off or ends. */
  ghost predicate StaticEdge(q: Query, b: string, p: string) {
    && p != ""
    && IsPlain(p)
    && Live(q.skeleton, b + p)
    && (forall j :: 0 < j < |p| ==> b + p[..j] !in q.entries)
    && (forall j, s :: 0 < j < |p| && s in q.skeleton && b + p[..j] <= s ==> b + p <= s)
  }

  lemma MidLive(q: Query, b: string, p: string, j: nat)
    requires StaticEdge(q, b, p) && j < |p|
    ensures Live(q.skeleton, b + p[..j] + [p[j]])
    ensures 0 < j ==> forall c :: Live(q.skeleton, b + p[..j] + [c]) ==> c == p[j]
  {
    var mid := b + p[..j];
    var s :| s in q.skeleton && b + p <= s;
    assert (b + p)[..|b| + j + 1] == mid + [p[j]];
    if 0 < j {
      forall c | Live(q.skeleton, mid + [c]) ensures c == p[j] {
        var t :| t in q.skeleton && mid + [c] <= t;
        assert mid <= t;
        assert b + p <= t;
        assert t[|b| + j] == c && t[|b| + j] == p[j];
      }
    }
  }

  /** Inside an edge there is no alternative to the next byte. */
  lemma MidMisses(q: Query, b: string, p: string, j: nat, rest: string, st: State)
    requires StaticEdge(q, b, p) && 0 < j < |p|
    ensures FromParam(q, b + p[..j], rest, st) == Miss(st)
    ensures rest == "" || rest[0] != p[j] ==> Search(q, b + p[..j], rest, st) == Miss(st)
    ensures rest != "" && rest[0] == p[j] ==>
              HasStatic(q, b + p[..j], rest) && Search(q, b + p[..j], rest, st) == Below(q, b + p[..j], rest, st)
  {
    MidLive(q, b, p, j);
  }

  /** Following the bytes of an edge, `j` of them. */
  lemma {:induction false} EdgeRun(q: Query, b: string, p: string, j: nat, rest: string, st: State)
    requires StaticEdge(q, b, p) && 0 < j <= |p|
    requires j <= |rest| && rest[..j] == p[..j]
    ensures Unwind(q, b, rest, Below(q, b, rest, st))
         == Unwind(q, b + p[..j], rest[j..], Search(q, b + p[..j], rest[j..], st))
  {
    assert rest[j - 1] == rest[..j][j - 1] == p[j - 1];
    MidLive(q, b, p, j - 1);
    assert b + p[..j] == b + p[..j - 1] + [p[j - 1]];
    if j == 1 {
      assert b + p[..0] == b;
      StaticStep(q, b, rest, st);
    } else {
      assert rest[..j - 1] == rest[..j][..j - 1] == p[..j - 1];
      EdgeRun(q, b, p, j - 1, rest, st);
      MidMisses(q, b, p, j - 1, rest[j - 1..], st);
      StaticStep(q, b + p[..j - 1], rest[j - 1..], st);
      assert rest[j - 1..][1..] == rest[j..];
    }
  }

  /** A miss inside an edge comes back to the alternatives at its upper end. */
  lemma {:induction false} EdgeReturn(q: Query, b: string, p: string, j: nat, rest: string, st: State)
    requires StaticEdge(q, b, p) && 0 < j <= |p|
    requires j <= |rest| && rest[..j] == p[..j]
    ensures Unwind(q, b + p[..j], rest[j..], Miss(st)) == Unwind(q, b, rest, FromParam(q, b, rest, st))
  {
    assert rest[j - 1] == rest[..j][j - 1] == p[j - 1];
    assert b + p[..j] == b + p[..j - 1] + [p[j - 1]];
    assert [p[j - 1]] + rest[j..] == rest[j - 1..];
    StaticReturn(q, b + p[..j - 1], p[j - 1], rest[j..], st);
    if j == 1 {
      assert b + p[..0] == b && rest[0..] == rest;
    } else {
      assert rest[..j - 1] == rest[..j][..j - 1] == p[..j - 1];
      MidMisses(q, b, p, j - 1, rest[j - 1..], st);
      EdgeReturn(q, b, p, j - 1, rest, st);
    }
  }

  /** When the rest leaves the edge after `j` bytes, the search goes on with the alternatives at its upper end. */
  lemma EdgeFails(q: Query, b: string, p: string, j: nat, rest: string, st: State)
    requires StaticEdge(q, b, p) && j < |p|
    requires j <= |rest| && rest[..j] == p[..j] && (j < |rest| ==> rest[j] != p[j])
    requires j == 0 ==> !HasStatic(q, b, rest)
    ensures Unwind(q, b, rest, Below(q, b, rest, st)) == Unwind(q, b, rest, FromParam(q, b, rest, st))
  {
    if j > 0 {
      EdgeRun(q, b, p, j, rest, st);
      MidMisses(q, b, p, j, rest[j..], st);
      EdgeReturn(q, b, p, j, rest, st);
    }
  }

  // ---------------------------------------------------------------------------
  // A hit is a registered route.

  /** The route is registered under the shape, for the method or as its not-found route. */
  ghost predicate IsBoundAt(q: Query, shape: string, route: RouteMethod) {
    && shape in q.entries
    && exists m :: m in q.entries[shape].methods.bound && q.entries[shape].methods.bound[m] == route
  }

  lemma FindIsBound(q: Query, shape: string, m: string)
    ensures var f := q.At(shape).methods.Find(m, true, q.autoHead); f.Some? ==> IsBoundAt(q, shape, f.value)
    ensures var f := q.At(shape).methods.NotFound(); f.Some? ==> IsBoundAt(q, shape, f.value)
  {
  }

  lemma {:induction false} SearchHitsBound(q: Query, pre: string, rest: string, st: State)
    ensures var o := Search(q, pre, rest, st); o.Hit? ==> IsBoundAt(q, o.shape, o.route)
    decreases Height(q.skeleton) - |pre|, 3
  {
    FindIsBound(q, pre, q.verb);
    BelowHitsBound(q, pre, rest, st);
    BelowHitsBound(q, pre, rest, Remember(st, pre));
  }

  lemma {:induction false} BelowHitsBound(q: Query, pre: string, rest: string, st: State)
    ensures var o := Below(q, pre, rest, st); o.Hit? ==> IsBoundAt(q, o.shape, o.route)
    decreases Height(q.skeleton) - |pre|, 2
  {
    if HasStatic(q, pre, rest) {
      SearchHitsBound(q, pre + [rest[0]], rest[1..], st);
      FromParamHitsBound(q, pre, rest, Search(q, pre + [rest[0]], rest[1..], st).st);
    } else {
      FromParamHitsBound(q, pre, rest, st);
    }
  }

  lemma {:induction false} FromParamHitsBound(q: Query, pre: string, rest: string, st: State)
    ensures var o := FromParam(q, pre, rest, st); o.Hit? ==> IsBoundAt(q, o.shape, o.route)
    decreases Height(q.skeleton) - |pre|, 1
  {
    FindIsBound(q, pre + [ANY_LABEL], q.verb);
    if HasParam(q, pre, rest) {
      var k, n := CountMarks(pre), TakeLength(q.skeleton, pre, rest);
      SearchHitsBound(q, pre + [PARAM_LABEL], rest[n..], st.(values := Put(st.values, k, rest[..n])));
    }
  }
}
