/** The order in which routes are registered. */
module RouteOrder {
  import opened Wrappers
  import opened RoutePaths
  import opened RouteTable
  import opened RadixInsert
  import opened RadixRemove
  import opened RouterState

  /** What is registered after these registrations, in this order. */
  function BindOn(e: Entries, regs: seq<RouteMethod>): Entries {
    if regs == [] then e
    else
      var last := regs[|regs| - 1];
      Bind(BindOn(e, regs[..|regs| - 1]), Shape(last.path), last.verb, last)
  }

  /** What is registered after these registrations, in this order, in a new router. */
  function BindAll(regs: seq<RouteMethod>): Entries {
    BindOn(map[], regs)
  }

  /** No two registrations share both shape and method. */
  ghost predicate Distinct(regs: seq<RouteMethod>) {
    forall i, j :: 0 <= i < j < |regs| ==> Shape(regs[i].path) != Shape(regs[j].path) || regs[i].verb != regs[j].verb
  }

  /** Where no element comes twice, this makes one series a permutation of the other. */
  ghost predicate SameElements<T(!new)>(a: seq<T>, b: seq<T>) {
    forall x :: x in a <==> x in b
  }

  predicate Registers(r: RouteMethod, shape: string, verb: string) {
    Shape(r.path) == shape && r.verb == verb
  }

  lemma {:induction false} OnlyRegisteredIsBound(regs: seq<RouteMethod>, shape: string, verb: string)
    ensures IsBoundIn(BindAll(regs), shape, verb) <==> exists r :: r in regs && Registers(r, shape, verb)
  {
    if regs != [] {
      var before, last := regs[..|regs| - 1], regs[|regs| - 1];
      OnlyRegisteredIsBound(before, shape, verb);
      assert regs == before + [last];
      assert IsBoundIn(BindAll(regs), shape, verb)
        <==> IsBoundIn(BindAll(before), shape, verb) || Registers(last, shape, verb);
      if Registers(last, shape, verb) {
        assert last in regs;
      }
    }
  }

  lemma {:induction false} EachIsBound(regs: seq<RouteMethod>, i: nat)
    requires Distinct(regs) && i < |regs|
    ensures IsBoundIn(BindAll(regs), Shape(regs[i].path), regs[i].verb)
    ensures BindAll(regs)[Shape(regs[i].path)].methods.bound[regs[i].verb] == regs[i]
  {
    var before := regs[..|regs| - 1];
    if i < |before| {
      assert Shape(before[i].path) != Shape(regs[|before|].path) || before[i].verb != regs[|before|].verb;
      EachIsBound(before, i);
    }
  }

  lemma {:induction false} KeysAreBound(regs: seq<RouteMethod>, shape: string)
    requires shape in BindAll(regs)
    ensures exists v :: v in BindAll(regs)[shape].methods.bound
  {
    var before, last := regs[..|regs| - 1], regs[|regs| - 1];
    if shape == Shape(last.path) {
      assert last.verb in BindAll(regs)[shape].methods.bound;
    } else {
      KeysAreBound(before, shape);
    }
  }

  /** The two tables bind the same routes; they may differ in which registration was the last at a shape. */
  ghost predicate SameBindings(a: Entries, b: Entries) {
    a.Keys == b.Keys && forall s :: s in a ==> a[s].methods == b[s].methods
  }

  lemma BoundAlike(a: seq<RouteMethod>, b: seq<RouteMethod>, shape: string, verb: string)
    requires Distinct(a) && Distinct(b) && SameElements(a, b) && IsBoundIn(BindAll(a), shape, verb)
    ensures IsBoundIn(BindAll(b), shape, verb)
    ensures BindAll(a)[shape].methods.bound[verb] == BindAll(b)[shape].methods.bound[verb]
  {
    OnlyRegisteredIsBound(a, shape, verb);
    var r :| r in a && Registers(r, shape, verb);
    var i :| 0 <= i < |a| && a[i] == r;
    var j :| 0 <= j < |b| && b[j] == r;
    EachIsBound(a, i);
    EachIsBound(b, j);
  }

  /** Registrations for distinct shapes and methods may come in any order. */
  lemma AnyOrderBindsTheSame(a: seq<RouteMethod>, b: seq<RouteMethod>)
    requires Distinct(a) && Distinct(b) && SameElements(a, b)
    ensures SameBindings(BindAll(a), BindAll(b))
  {
    var ea, eb := BindAll(a), BindAll(b);
    forall s | s in ea || s in eb ensures s in ea && s in eb && ea[s].methods == eb[s].methods {
      if s in ea {
        KeysAreBound(a, s);
        var v :| v in ea[s].methods.bound;
        BoundAlike(a, b, s, v);
      } else {
        KeysAreBound(b, s);
        var v :| v in eb[s].methods.bound;
        BoundAlike(b, a, s, v);
      }
      forall v | v in ea[s].methods.bound || v in eb[s].methods.bound
        ensures v in ea[s].methods.bound && v in eb[s].methods.bound && ea[s].methods.bound[v] == eb[s].methods.bound[v]
      {
        if v in ea[s].methods.bound {
          BoundAlike(a, b, s, v);
        } else {
          BoundAlike(b, a, s, v);
        }
      }
      assert ea[s].methods.bound == eb[s].methods.bound;
    }
  }

  // ---------------------------------------------------------------------------
  // The search reads bindings and nothing else.

  ghost predicate SameQuery(a: Query, b: Query) {
    a.skeleton == b.skeleton && a.verb == b.verb && a.autoHead == b.autoHead && SameBindings(a.entries, b.entries)
  }

  lemma {:induction false} SearchReadsBindings(a: Query, b: Query, pre: string, rest: string, st: State)
    requires SameQuery(a, b)
    ensures Search(a, pre, rest, st) == Search(b, pre, rest, st)
    decreases Height(a.skeleton) - |pre|, 3
  {
    assert a.At(pre).methods == b.At(pre).methods;
    BelowReadsBindings(a, b, pre, rest, st);
    BelowReadsBindings(a, b, pre, rest, Remember(st, pre));
  }

  lemma {:induction false} BelowReadsBindings(a: Query, b: Query, pre: string, rest: string, st: State)
    requires SameQuery(a, b)
    ensures RouteTable.Below(a, pre, rest, st) == RouteTable.Below(b, pre, rest, st)
    decreases Height(a.skeleton) - |pre|, 2
  {
    if HasStatic(a, pre, rest) {
      SearchReadsBindings(a, b, pre + [rest[0]], rest[1..], st);
      FromParamReadsBindings(a, b, pre, rest, Search(a, pre + [rest[0]], rest[1..], st).st);
    } else {
      FromParamReadsBindings(a, b, pre, rest, st);
    }
  }

  lemma {:induction false} FromParamReadsBindings(a: Query, b: Query, pre: string, rest: string, st: State)
    requires SameQuery(a, b)
    ensures FromParam(a, pre, rest, st) == FromParam(b, pre, rest, st)
    decreases Height(a.skeleton) - |pre|, 1
  {
    assert a.At(pre + [ANY_LABEL]).methods == b.At(pre + [ANY_LABEL]).methods;
    if HasParam(a, pre, rest) {
      var k, n := CountMarks(pre), TakeLength(a.skeleton, pre, rest);
      SearchReadsBindings(a, b, pre + [PARAM_LABEL], rest[n..], st.(values := Put(st.values, k, rest[..n])));
    }
  }

  /** The path of the last registration at a shape. */
  function LastPath(regs: seq<RouteMethod>, shape: string): string {
    if regs == [] then ""
    else if Shape(regs[|regs| - 1].path) == shape then regs[|regs| - 1].path
    else LastPath(regs[..|regs| - 1], shape)
  }

  lemma {:induction false} LastPathIsKept(regs: seq<RouteMethod>, shape: string)
    ensures LastPath(regs, shape) == if shape in BindAll(regs) then BindAll(regs)[shape].lastPath else ""
  {
    if regs != [] && Shape(regs[|regs| - 1].path) != shape {
      LastPathIsKept(regs[..|regs| - 1], shape);
    }
  }

  /**
     For registrations with distinct shapes and methods the answer to a request does not depend on their
     order: not its handler, not the matched route, not the path values. The path differs exactly in a
     method-not-allowed answer at a shape whose last registrations have different paths.
   */
  lemma OrderIsIrrelevant(a: seq<RouteMethod>, b: seq<RouteMethod>, verb: string, autoHead: bool, path: string,
                          values: seq<string>, slots: seq<string>, fallbacks: Fallbacks)
    requires Distinct(a) && Distinct(b) && SameElements(a, b)
    ensures var qa, qb := RequestQuery(BindAll(a), verb, autoHead), RequestQuery(BindAll(b), verb, autoHead);
            var o := Lookup(qa, path, values);
            && o == Lookup(qb, path, values)
            && (Resolvable(o, slots) ==>
                  var ra, rb := Resolve(qa, fallbacks, o, slots), Resolve(qb, fallbacks, o, slots);
                  && ra.handler == rb.handler && ra.info == rb.info && ra.values == rb.values
                  && (ra.path != rb.path <==>
                        ra.info == MethodNotAllowed
                        && LastPath(a, o.st.best.value) != LastPath(b, o.st.best.value)))
  {
    AnyOrderBindsTheSame(a, b);
    var qa, qb := RequestQuery(BindAll(a), verb, autoHead), RequestQuery(BindAll(b), verb, autoHead);
    SearchReadsBindings(qa, qb, "", path, State(values, None));
    var o := Lookup(qa, path, values);
    if !o.Hit? && o.st.best.Some? {
      assert qa.At(o.st.best.value).methods == qb.At(o.st.best.value).methods;
      LastPathIsKept(a, o.st.best.value);
      LastPathIsKept(b, o.st.best.value);
    }
  }

  ghost predicate SameLastPaths(a: seq<RouteMethod>, b: seq<RouteMethod>) {
    forall shape :: LastPath(a, shape) == LastPath(b, shape)
  }

  /** Two orders lead to the same table if and only if the last path at each shape is the same. */
  lemma SameTableUnlessLastPathDiffers(a: seq<RouteMethod>, b: seq<RouteMethod>)
    requires Distinct(a) && Distinct(b) && SameElements(a, b)
    ensures BindAll(a) == BindAll(b) <==> SameLastPaths(a, b)
  {
    var ea, eb := BindAll(a), BindAll(b);
    AnyOrderBindsTheSame(a, b);
    if ea == eb {
      forall shape ensures LastPath(a, shape) == LastPath(b, shape) {
        LastPathIsKept(a, shape);
        LastPathIsKept(b, shape);
      }
    }
    if SameLastPaths(a, b) {
      forall shape | shape in ea ensures ea[shape] == eb[shape] {
        LastPathIsKept(a, shape);
        LastPathIsKept(b, shape);
      }
      assert ea == eb;
    }
  }

  /** With the same last path at each shape, all answers are the same, their paths included. */
  lemma SameLastPathsSameAnswers(a: seq<RouteMethod>, b: seq<RouteMethod>, verb: string, autoHead: bool, path: string,
                                 values: seq<string>, slots: seq<string>, fallbacks: Fallbacks)
    requires Distinct(a) && Distinct(b) && SameElements(a, b) && SameLastPaths(a, b)
    ensures var qa, qb := RequestQuery(BindAll(a), verb, autoHead), RequestQuery(BindAll(b), verb, autoHead);
            var o := Lookup(qa, path, values);
            && o == Lookup(qb, path, values)
            && (Resolvable(o, slots) ==> Resolve(qa, fallbacks, o, slots) == Resolve(qb, fallbacks, o, slots))
  {
    SameTableUnlessLastPathDiffers(a, b);
  }

  /** GET "/:x" and POST "/:y", asked for with PUT: the path of the answer is that of the later one. */
  lemma OrderShowsInPath(x: RouteMethod, y: RouteMethod, autoHead: bool, fallbacks: Fallbacks)
    requires x.verb == METHOD_GET && x.path == "/:x" && y.verb == "POST" && y.path == "/:y"
    ensures var q, r := RequestQuery(BindAll([x, y]), "PUT", autoHead), RequestQuery(BindAll([y, x]), "PUT", autoHead);
            var o := Lookup(q, "/1", [""]);
            && Distinct([x, y]) && SameElements([x, y], [y, x])
            && o == Lookup(r, "/1", [""]) && Resolvable(o, [""])
            && Resolve(q, fallbacks, o, [""]).info == Resolve(r, fallbacks, o, [""]).info == MethodNotAllowed
            && Resolve(q, fallbacks, o, [""]).path == "/:y" && Resolve(r, fallbacks, o, [""]).path == "/:x"
  {
    ShapeOfMark("x");
    ShapeOfMark("y");
    assert "/:x" == "/:" + "x" && "/:y" == "/:" + "y";
    TwoAtOneShape(x, y);
    TwoAtOneShape(y, x);
    PutIsNotAllowed(RequestQuery(BindAll([x, y]), "PUT", autoHead), fallbacks);
    PutIsNotAllowed(RequestQuery(BindAll([y, x]), "PUT", autoHead), fallbacks);
  }

  lemma TwoAtOneShape(x: RouteMethod, y: RouteMethod)
    requires Shape(x.path) == Shape(y.path) && x.verb != y.verb
    ensures BindAll([x, y]) == map[Shape(x.path) := Entry(MethodTable(map[x.verb := x, y.verb := y]), y.path)]
    ensures Distinct([x, y]) && Distinct([y, x]) && SameElements([x, y], [y, x])
  {
    assert [x, y][..1] == [x] && [x][..|[x]| - 1] == [];
    assert BindAll([]) == map[] && BindAll([x]) == Bind(map[], Shape(x.path), x.verb, x);
    assert map[x.verb := x, y.verb := y] == map[x.verb := x][y.verb := y];
  }

  lemma ShapeOfMark(name: string)
    requires name != "" && '/' !in name
    ensures Shape("/:" + name) == "/:"
  {
    var path := "/:" + name;
    assert path[1..][1..] == name;
    SegmentOfName(name);
    assert path[1..] == ":" + name;
    assert Shape(path[1..]) == ":" + Shape(name[|name|..]);
  }

  lemma {:induction false} SegmentOfName(name: string)
    requires '/' !in name
    ensures SegmentLength(name) == |name|
  {
    if name != "" {
      SegmentOfName(name[1..]);
    }
  }

  lemma PutIsNotAllowed(q: Query, fallbacks: Fallbacks)
    requires q.skeleton == {"/:"} && q.entries.Keys == {"/:"} && q.verb == "PUT"
    requires q.entries["/:"].methods.bound.Keys == {METHOD_GET, "POST"}
    ensures var o := Lookup(q, "/1", [""]);
            && o == Miss(State([""], Some("/:"))) && Resolvable(o, [""])
            && Resolve(q, fallbacks, o, [""]).info == MethodNotAllowed
            && Resolve(q, fallbacks, o, [""]).path == q.entries["/:"].lastPath
  {
    BestWithoutMethod(q);
    assert "/:"[..1] == "/" && "/"[..0] == "" && CountMarks("/") == 0;
    assert CountMarks("/:") == 1;
  }

  /** One parameter shape, which has handlers but none for the method. */
  lemma BestWithoutMethod(q: Query)
    requires q.skeleton == {"/:"} && q.entries.Keys == {"/:"} && q.verb == "PUT"
    requires q.entries["/:"].methods.bound.Keys == {METHOD_GET, "POST"}
    ensures Lookup(q, "/1", [""]) == Miss(State([""], Some("/:")))
  {
    var st := State([""], None);
    assert METHOD_GET in q.At("/:").methods.bound;
    assert forall s :: s in q.skeleton <==> s == "/:";
    assert "/" <= "/:" && "/:"[0] == '/' && "/:"[1] == ':';
    assert "" + ['/'] == "/" && "/" + ['1'] == "/1" && "/" + [PARAM_LABEL] == "/:" && "/1"[1..] == "1";
    assert CountMarks("/") == 0;
    var found := State(["1"], Some("/:"));
    assert !Live(q.skeleton, "/:" + [ANY_LABEL]) && !Live(q.skeleton, "/" + [ANY_LABEL]) && !Live(q.skeleton, "/1");
    assert FromAny(q, "/:", "", found) == Miss(found);
    assert !HasParam(q, "/:", "") && FromParam(q, "/:", "", found) == Miss(found);
    assert Below(q, "/:", "", found) == Miss(found);
    assert Search(q, "/:", "", State(["1"], None)) == Miss(found);
    assert IsEnd(q.skeleton, "/:") && Live(q.skeleton, "/:") && Live(q.skeleton, "/");
    assert TakeLength(q.skeleton, "/", "1") == 1 && "1"[1..] == "" && "1"[..1] == "1";
    assert Put([""], 0, "1") == ["1"] && Put(["1"], 0, "") == [""];
    assert FromParam(q, "/", "1", st) == FromAny(q, "/", "1", State([""], Some("/:")));
    assert Search(q, "/", "1", st) == Miss(State([""], Some("/:")));
    assert Below(q, "", "/1", st) == FromParam(q, "", "/1", State([""], Some("/:")));
    assert !Live(q.skeleton, "" + [PARAM_LABEL]) && !Live(q.skeleton, "" + [ANY_LABEL]);
  }

  // ---------------------------------------------------------------------------
  // Routers that were built by a series of registrations.

  const NewBook := Book([], map[])

  function AddAllTo(config: RouterConfig, b: Book, rs: seq<Route>): Book {
    if rs == [] then b else AddTo(config, AddAllTo(config, b, rs[..|rs| - 1]), rs[|rs| - 1])
  }

  /** What the registrations return. */
  function Outcomes(config: RouterConfig, b: Book, rs: seq<Route>): seq<Result<RouteInfo, AddError>> {
    if rs == [] then []
    else
      var before, last := rs[..|rs| - 1], rs[|rs| - 1];
      Outcomes(config, b, before) + [Registration(config, AddAllTo(config, b, before).routes, last)]
  }

  function Successes(outcomes: seq<Result<RouteInfo, AddError>>): seq<RouteInfo> {
    if outcomes == [] then []
    else
      var last := outcomes[|outcomes| - 1];
      Successes(outcomes[..|outcomes| - 1]) + if last.Success? then [last.value] else []
  }

  function Failures(outcomes: seq<Result<RouteInfo, AddError>>): seq<AddError> {
    if outcomes == [] then []
    else
      var last := outcomes[|outcomes| - 1];
      Failures(outcomes[..|outcomes| - 1]) + if last.Failure? then [last.error] else []
  }

  /** One more registration of a series. */
  lemma AddsOneMore(config: RouterConfig, b: Book, rs: seq<Route>, i: nat)
    requires i < |rs|
    ensures var book, os := AddAllTo(config, b, rs[..i]), Outcomes(config, b, rs[..i]);
            var o := Registration(config, book.routes, rs[i]);
            && AddAllTo(config, b, rs[..i + 1]) == AddTo(config, book, rs[i])
            && Successes(Outcomes(config, b, rs[..i + 1])) == Successes(os) + (if o.Success? then [o.value] else [])
            && Failures(Outcomes(config, b, rs[..i + 1])) == Failures(os) + (if o.Failure? then [o.error] else [])
  {
    assert rs[..i + 1][..i] == rs[..i];
    var after := Outcomes(config, b, rs[..i + 1]);
    assert after[..|after| - 1] == Outcomes(config, b, rs[..i]);
  }

  /** The registrations of the series that succeed, in their order. */
  function Accepted(config: RouterConfig, b: Book, rs: seq<Route>): seq<RouteMethod> {
    if rs == [] then []
    else
      var before, last := rs[..|rs| - 1], rs[|rs| - 1];
      Accepted(config, b, before)
      + if Registration(config, AddAllTo(config, b, before).routes, last).Success? then [Bound(config, last)] else []
  }

  lemma {:induction false} AddAllBinds(config: RouterConfig, b: Book, rs: seq<Route>)
    ensures AddAllTo(config, b, rs).entries == BindOn(b.entries, Accepted(config, b, rs))
  {
    if rs != [] {
      var before, last := rs[..|rs| - 1], rs[|rs| - 1];
      AddAllBinds(config, b, before);
      var accepted := Accepted(config, b, rs);
      if Registration(config, AddAllTo(config, b, before).routes, last).Failure? {
        assert accepted == Accepted(config, b, before);
      } else {
        assert accepted == Accepted(config, b, before) + [Bound(config, last)];
        assert accepted[..|accepted| - 1] == Accepted(config, b, before);
      }
    }
  }

  /** What the registrations bind when none of them fails. */
  function BoundAll(config: RouterConfig, rs: seq<Route>): (r: seq<RouteMethod>)
    requires forall x :: x in rs ==> EffectiveHandler(config, x).Some?
    ensures |r| == |rs| && forall i :: 0 <= i < |rs| ==> r[i] == Bound(config, rs[i])
  {
    if rs == [] then [] else BoundAll(config, rs[..|rs| - 1]) + [Bound(config, rs[|rs| - 1])]
  }

  /** All registrations have a handler, and no two share both shape and method. */
  ghost predicate Orderly(config: RouterConfig, rs: seq<Route>) {
    && (forall x :: x in rs ==> EffectiveHandler(config, x).Some?)
    && Distinct(BoundAll(config, rs))
  }

  /** Only what has been registered is on the list. */
  lemma {:induction false} OnlyAddedIsListed(config: RouterConfig, rs: seq<Route>, verb: string, path: string)
    requires IsListed(AddAllTo(config, NewBook, rs).routes, verb, path)
    ensures exists i :: 0 <= i < |rs| && rs[i].verb == verb && rs[i].path == path
  {
    var before, last := rs[..|rs| - 1], rs[|rs| - 1];
    var b := AddAllTo(config, NewBook, before);
    if Registration(config, b.routes, last).Success? {
      StoringKeepsListed(b.routes, Registration(config, b.routes, last).value, verb, path);
    }
    if IsListed(b.routes, verb, path) {
      OnlyAddedIsListed(config, before, verb, path);
      var i :| 0 <= i < |before| && before[i].verb == verb && before[i].path == path;
      assert rs[i] == before[i];
    }
  }

  lemma LastIsNew(config: RouterConfig, rs: seq<Route>)
    requires Orderly(config, rs) && rs != []
    ensures var before, last := rs[..|rs| - 1], rs[|rs| - 1];
            && Orderly(config, before) && EffectiveHandler(config, last).Some?
            && forall i :: 0 <= i < |before| ==> before[i].verb != last.verb || before[i].path != last.path
  {
    var before, last := rs[..|rs| - 1], rs[|rs| - 1];
    var all := BoundAll(config, rs);
    assert all[..|before|] == BoundAll(config, before);
    forall i | 0 <= i < |before| ensures before[i].verb != last.verb || before[i].path != last.path {
      assert all[i] == Bound(config, before[i]) && all[|before|] == Bound(config, last);
    }
  }

  /** Such registrations all succeed. */
  lemma {:induction false} OrderlyAreAccepted(config: RouterConfig, rs: seq<Route>)
    requires Orderly(config, rs)
    ensures Accepted(config, NewBook, rs) == BoundAll(config, rs) && Failures(Outcomes(config, NewBook, rs)) == []
  {
    if rs != [] {
      var before, last := rs[..|rs| - 1], rs[|rs| - 1];
      LastIsNew(config, rs);
      OrderlyAreAccepted(config, before);
      if IsListed(AddAllTo(config, NewBook, before).routes, last.verb, last.path) {
        OnlyAddedIsListed(config, before, last.verb, last.path);
      }
      assert rs[..|before| + 1] == rs;
      AddsOneMore(config, NewBook, rs, |before|);
    }
  }

  function InfoOf(route: Route): RouteInfo {
    ToRouteInfo(route, Names(Normalize(route.path)))
  }

  lemma LastIsAccepted(config: RouterConfig, rs: seq<Route>)
    requires Orderly(config, rs) && rs != []
    ensures var before, last := rs[..|rs| - 1], rs[|rs| - 1];
            Registration(config, AddAllTo(config, NewBook, before).routes, last) == Success(InfoOf(last))
  {
    var before, last := rs[..|rs| - 1], rs[|rs| - 1];
    LastIsNew(config, rs);
    if IsListed(AddAllTo(config, NewBook, before).routes, last.verb, last.path) {
      OnlyAddedIsListed(config, before, last.verb, last.path);
    }
  }

  ghost predicate AreInfos(infos: seq<RouteInfo>, rs: seq<Route>) {
    |infos| == |rs| && forall i :: 0 <= i < |rs| ==> infos[i] == InfoOf(rs[i])
  }

  lemma OneMoreInfo(infos: seq<RouteInfo>, rs: seq<Route>)
    requires rs != [] && AreInfos(infos, rs[..|rs| - 1])
    ensures AreInfos(infos + [InfoOf(rs[|rs| - 1])], rs)
  {
  }

  /** What they return is their infos, in their order. */
  lemma {:induction false} OrderlyReturnInfos(config: RouterConfig, rs: seq<Route>)
    requires Orderly(config, rs)
    ensures AreInfos(Successes(Outcomes(config, NewBook, rs)), rs)
  {
    if rs != [] {
      var before := rs[..|rs| - 1];
      LastIsNew(config, rs);
      LastIsAccepted(config, rs);
      OrderlyReturnInfos(config, before);
      assert rs[..|before| + 1] == rs;
      AddsOneMore(config, NewBook, rs, |before|);
      OneMoreInfo(Successes(Outcomes(config, NewBook, before)), rs);
    }
  }

  /**
     Two routers that were built by the same registrations in two orders: none is refused, and all are bound alike.
     What the routers answer to a request can then differ in the path of a method-not-allowed answer only.
   */
  lemma RoutersAgree(config: RouterConfig, rs: seq<Route>, ss: seq<Route>)
    requires Orderly(config, rs) && Orderly(config, ss) && SameElements(rs, ss)
    ensures AddAllTo(config, NewBook, rs).entries == BindAll(BoundAll(config, rs))
    ensures AddAllTo(config, NewBook, ss).entries == BindAll(BoundAll(config, ss))
    ensures SameElements(BoundAll(config, rs), BoundAll(config, ss))
    ensures SameBindings(AddAllTo(config, NewBook, rs).entries, AddAllTo(config, NewBook, ss).entries)
  {
    OrderlyAreAccepted(config, rs);
    OrderlyAreAccepted(config, ss);
    AddAllBinds(config, NewBook, rs);
    AddAllBinds(config, NewBook, ss);
    SameBound(config, rs, ss);
    SameBound(config, ss, rs);
    AnyOrderBindsTheSame(BoundAll(config, rs), BoundAll(config, ss));
  }

  lemma SameBound(config: RouterConfig, rs: seq<Route>, ss: seq<Route>)
    requires Orderly(config, rs) && Orderly(config, ss) && SameElements(rs, ss)
    ensures forall r :: r in BoundAll(config, rs) ==> r in BoundAll(config, ss)
  {
    forall r | r in BoundAll(config, rs) ensures r in BoundAll(config, ss) {
      var i :| 0 <= i < |rs| && BoundAll(config, rs)[i] == r;
      assert rs[i] in ss;
      var j :| 0 <= j < |ss| && ss[j] == rs[i];
      assert BoundAll(config, ss)[j] == r;
    }
  }
}
