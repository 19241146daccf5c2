/** From a route and values back to a path: `Reverse`, and routing what it prints. */
module RouteReverse {
  import opened Wrappers
  import opened RoutePaths
  import opened RouteTable
  import opened RadixInsert
  import opened RouteSearch
  import opened RouterState
  import opened RouteOrder

  /** From byte `i` on and with the values from `n` on: the path with its parameters replaced. */
  function Reversed(path: string, i: nat, values: seq<string>, n: nat): string
    requires i <= |path| && n <= |values|
    decreases |path| - i, 1
  {
    if i == |path| then ""
    else
      var k := if path[i] == '\\' && i + 1 < |path| && path[i + 1] == PARAM_LABEL then i + 1 else i;
      if n < |values| && (path[k] == ANY_LABEL || (path[i] != '\\' && path[k] == PARAM_LABEL)) then
        values[n] + AfterValue(path, k + SegmentLength(path[k..]), values, n + 1)
      else AfterValue(path, k, values, n)
  }

  /** The byte after a value, or in its place, is printed as it is. */
  function AfterValue(path: string, i: nat, values: seq<string>, n: nat): string
    requires i <= |path| && n <= |values|
    decreases |path| - i, 0
  {
    if i == |path| then "" else [path[i]] + Reversed(path, i + 1, values, n)
  }

  /** `all` is what has been printed, and then what is printed from byte `i` on. */
  ghost predicate Prints(all: string, uri: string, path: string, i: nat, values: seq<string>, n: nat) {
    i <= |path| && n <= |values| && all == uri + Reversed(path, i, values, n)
  }

  ghost predicate PrintsNext(all: string, uri: string, path: string, i: nat, values: seq<string>, n: nat) {
    i <= |path| && n <= |values| && all == uri + AfterValue(path, i, values, n)
  }

  lemma PrintValue(all: string, uri: string, path: string, i: nat, k: nat, values: seq<string>, n: nat)
    requires Prints(all, uri, path, i, values, n) && i < |path|
    requires k == if path[i] == '\\' && i + 1 < |path| && path[i + 1] == PARAM_LABEL then i + 1 else i
    ensures if n < |values| && (path[k] == ANY_LABEL || (path[i] != '\\' && path[k] == PARAM_LABEL))
            then PrintsNext(all, uri + values[n], path, k + SegmentLength(path[k..]), values, n + 1)
            else PrintsNext(all, uri, path, k, values, n)
  {
    if n < |values| {
      Associative(uri, values[n], AfterValue(path, k + SegmentLength(path[k..]), values, n + 1));
    }
  }

  lemma PrintByte(all: string, uri: string, path: string, i: nat, values: seq<string>, n: nat)
    requires PrintsNext(all, uri, path, i, values, n)
    ensures if i < |path| then Prints(all, uri + [path[i]], path, i + 1, values, n)
            else all == uri
  {
    if i < |path| {
      Associative(uri, [path[i]], Reversed(path, i + 1, values, n));
    }
  }

  method SkipSegment(path: string, i: nat) returns (end: nat)
    requires i <= |path|
    ensures end == i + SegmentLength(path[i..]) <= |path|
  {
    end := SegmentEnd(path[i..]);
    end := i + end;
  }

  /** A value in the place of a mark, if there is one left; in `\:` the backslash is left out and the colon stays. */
  method PrintNextValue(path: string, start: nat, values: seq<string>, count: nat, printed: string, ghost all: string)
    returns (i: nat, n: nat, uri: string)
    requires start < |path| && Prints(all, printed, path, start, values, count)
    ensures start <= i && PrintsNext(all, uri, path, i, values, n)
  {
    i, n, uri := start, count, printed;
    var hasBackslash := path[i] == '\\';
    if hasBackslash && i + 1 < |path| && path[i + 1] == PARAM_LABEL {
      i := i + 1;
    }
    PrintValue(all, printed, path, start, i, values, count);
    if n < |values| && (path[i] == ANY_LABEL || (!hasBackslash && path[i] == PARAM_LABEL)) {
      i := SkipSegment(path, i);
      uri := uri + values[n];
      n := n + 1;
    }
  }

  /** `RouteInfo.Reverse`: the path with its values printed from left to right. */
  method Reverse(ri: RouteInfo, pathValues: seq<string>) returns (uri: string)
    ensures uri == Reversed(ri.path, 0, pathValues, 0)
  {
    ghost var all := Reversed(ri.path, 0, pathValues, 0);
    uri := "";
    var i: nat, n: nat, l := 0, 0, |ri.path|;
    while i < l
      invariant i <= l && n <= |pathValues|
      invariant if i < l then Prints(all, uri, ri.path, i, pathValues, n) else all == uri
    {
      i, n, uri := PrintNextValue(ri.path, i, pathValues, n, uri, all);
      PrintByte(all, uri, ri.path, i, pathValues, n);
      if i < l {
        uri := uri + [ri.path[i]];
        i := i + 1;
      }
    }
  }

  // ---------------------------------------------------------------------------
  // What `Reverse` prints.

  /** A shape with its marks replaced, from left to right. */
  function FillFrom(t: string, values: seq<string>): string {
    if t == "" then ""
    else if IsMark(t[0]) then
      if values == [] then "" else values[0] + FillFrom(t[1..], values[1..])
    else [t[0]] + FillFrom(t[1..], values)
  }

  predicate StarOnlyLast(path: string) {
    forall i :: 0 <= i < |path| && path[i] == ANY_LABEL ==> i == |path| - 1
  }

  lemma MarksOfFirst(c: char, t: string)
    ensures CountMarks([c] + t) == (if IsMark(c) then 1 else 0) + CountMarks(t)
  {
    CountMarksConcat([c], t);
    assert CountMarks([c]) == (if IsMark(c) then 1 else 0) + CountMarks([c][..0]);
  }

  lemma FillFromFirst(c: char, t: string, values: seq<string>, n: nat)
    requires n <= |values|
    ensures IsMark(c) && n < |values| ==> FillFrom([c] + t, values[n..]) == values[n] + FillFrom(t, values[n + 1..])
    ensures !IsMark(c) ==> FillFrom([c] + t, values[n..]) == [c] + FillFrom(t, values[n..])
  {
    assert ([c] + t)[1..] == t;
    assert n < |values| ==> values[n..][1..] == values[n + 1..];
  }

  /** The shape of the rest of a path begins with its first byte; a parameter stands for its whole segment. */
  lemma ShapeFrom(path: string, i: nat) returns (e: nat)
    requires i < |path| && (path[i] == ANY_LABEL ==> i == |path| - 1)
    ensures i < e <= |path| && Shape(path[i..]) == [path[i]] + Shape(path[e..])
    ensures IsMark(path[i]) ==> e == i + SegmentLength(path[i..]) && (e < |path| ==> path[e] == '/')
    ensures !IsMark(path[i]) ==> e == i + 1
    ensures CountMarks(Shape(path[i..])) == (if IsMark(path[i]) then 1 else 0) + CountMarks(Shape(path[e..]))
  {
    var rest := path[i..];
    e := if IsMark(path[i]) then i + SegmentLength(rest) else i + 1;
    assert rest[0] == path[i];
    if path[i] == PARAM_LABEL {
      ParamFirst(rest);
      assert rest[SegmentLength(rest)..] == path[e..];
    } else if path[i] == ANY_LABEL {
      assert rest == [ANY_LABEL] && SegmentLength(rest) == 1 + SegmentLength(rest[1..]);
      assert path[e..] == "" && Shape(rest) == [ANY_LABEL];
    } else {
      StaticFirst(rest);
      assert rest[1..] == path[e..];
    }
    MarksOfFirst(path[i], Shape(path[e..]));
  }

  lemma {:induction false} ReversedFillsShape(path: string, i: nat, values: seq<string>, n: nat)
    requires !HasEscape(path) && StarOnlyLast(path) && i <= |path| && n <= |values|
    requires |values| - n == CountMarks(Shape(path[i..]))
    ensures Reversed(path, i, values, n) == FillFrom(Shape(path[i..]), values[n..])
    decreases |path| - i
  {
    if i < |path| {
      var e := ShapeFrom(path, i);
      ReversedFirst(path, i, values, n, e);
      FillFromFirst(path[i], Shape(path[e..]), values, n);
      ReversedFillsShape(path, e, values, if IsMark(path[i]) then n + 1 else n);
    }
  }

  lemma SlashIsPrinted(path: string, i: nat, values: seq<string>, n: nat)
    requires i <= |path| && n <= |values| && (i < |path| ==> path[i] == '/')
    ensures Reversed(path, i, values, n) == AfterValue(path, i, values, n)
  {
  }

  /** What is printed first: a value, or a byte as it is. */
  lemma ReversedFirst(path: string, i: nat, values: seq<string>, n: nat, e: nat)
    requires !HasEscape(path) && i < e <= |path| && n <= |values|
    requires IsMark(path[i]) ==> e == i + SegmentLength(path[i..]) && (e < |path| ==> path[e] == '/') && n < |values|
    requires !IsMark(path[i]) ==> e == i + 1
    ensures Reversed(path, i, values, n)
         == if IsMark(path[i]) then values[n] + Reversed(path, e, values, n + 1) else [path[i]] + Reversed(path, e, values, n)
  {
    if IsMark(path[i]) {
      SlashIsPrinted(path, e, values, n + 1);
    } else {
      assert Reversed(path, i, values, n) == AfterValue(path, i, values, n);
    }
  }

  // ---------------------------------------------------------------------------
  // Routing what was printed, with one route registered.

  /** A parameter ends a shape or is followed by a slash, and an any mark ends it. */
  ghost predicate IsShapeTail(t: string) {
    && (forall i :: 0 <= i < |t| && t[i] == PARAM_LABEL ==> i == |t| - 1 || t[i + 1] == '/')
    && (forall i :: 0 <= i < |t| && t[i] == ANY_LABEL ==> i == |t| - 1)
  }

  lemma TailFirst(c: char, t: string)
    requires IsShapeTail(t) && (c == PARAM_LABEL ==> t == "" || t[0] == '/') && (c == ANY_LABEL ==> t == "")
    ensures IsShapeTail([c] + t)
  {
    var s := [c] + t;
    forall i | 0 <= i < |s| ensures s[i] == if i == 0 then c else t[i - 1] {
    }
  }

  lemma {:induction false} ShapeIsShapeTail(path: string)
    ensures IsShapeTail(Shape(path))
    decreases |path|
  {
    if path == "" || path[0] == ANY_LABEL {
    } else {
      var rest := if path[0] == PARAM_LABEL then path[SegmentLength(path)..] else path[1..];
      if path[0] == PARAM_LABEL {
        ParamFirst(path);
      } else {
        StaticFirst(path);
      }
      ShapeIsShapeTail(rest);
      if rest != "" && rest[0] == '/' {
        StaticFirst(rest);
      }
      TailFirst(path[0], Shape(rest));
    }
  }

  /** A value can be read back: no slash where something follows, and not empty for a parameter at the end. */
  predicate Readable(t: string, values: seq<string>) {
    if t == "" || values == [] then true
    else if t[0] == PARAM_LABEL then
      (if t == [PARAM_LABEL] then values[0] != "" else '/' !in values[0]) && Readable(t[1..], values[1..])
    else if t[0] == ANY_LABEL then true
    else Readable(t[1..], values)
  }

  /** The request for the one registered route. */
  ghost predicate IsOnly(q: Query, shape: string, rm: RouteMethod) {
    && q.entries == map[shape := Entry(MethodTable(map[rm.verb := rm]), rm.path)] && q.skeleton == {shape}
    && rm.verb == q.verb && rm.verb != ROUTE_NOT_FOUND
  }

  lemma OnlyWay(q: Query, shape: string, rm: RouteMethod, pre: string)
    requires IsOnly(q, shape, rm) && pre < shape
    ensures !q.At(pre).methods.IsHandler() && q.At(pre).methods.NotFound().None?
    ensures forall c :: Live(q.skeleton, pre + [c]) <==> c == shape[|pre|]
    ensures IsEnd(q.skeleton, pre + [shape[|pre|]]) <==> |shape| == |pre| + 1
  {
    var next := pre + [shape[|pre|]];
    assert shape in q.skeleton && next <= shape;
    assert |shape| == |pre| + 1 ==> shape == next;
  }

  lemma OnlyFinds(q: Query, shape: string, rm: RouteMethod)
    requires IsOnly(q, shape, rm)
    ensures q.At(shape).methods.IsHandler() && q.At(shape).methods.Find(q.verb, true, q.autoHead) == Some(rm)
  {
    assert rm.verb in q.At(shape).methods.bound;
  }

  /** The search below `pre` ends at the route, with exactly these values for the marks that follow. */
  ghost predicate Reads(shape: string, rm: RouteMethod, k: nat, values: seq<string>, o: Outcome) {
    && o.Hit? && o.shape == shape && o.route == rm
    && k + |values| <= |o.st.values| && o.st.values[k..k + |values|] == values
  }

  lemma Sliced(a: seq<string>, k: nat, values: seq<string>)
    requires values != [] && k + |values| <= |a|
    ensures a[k..k + |values|] == values <==> a[k] == values[0] && a[k + 1..k + |values|] == values[1..]
  {
    assert a[k..k + |values|] == [a[k]] + a[k + 1..k + |values|];
    assert values == [values[0]] + values[1..];
  }

  /** The first segment of a value that is followed by a slash. */
  lemma {:induction false} SegmentOf(v: string, rest: string)
    ensures '/' !in v && (rest == "" || rest[0] == '/') ==> SegmentLength(v + rest) == |v|
    ensures '/' in v ==> SegmentLength(v + rest) < |v|
  {
    if v == "" {
      assert v + rest == rest;
    } else {
      SegmentOf(v[1..], rest);
      assert (v + rest)[1..] == v[1..] + rest;
    }
  }

  lemma {:induction false} ReadsBack(q: Query, shape: string, rm: RouteMethod, pre: string, values: seq<string>, st: State)
    requires IsOnly(q, shape, rm) && pre <= shape && IsShapeTail(shape[|pre|..])
    requires |values| == CountMarks(shape[|pre|..]) && CountMarks(pre) + |values| <= |st.values|
    ensures Reads(shape, rm, CountMarks(pre), values, Search(q, pre, FillFrom(shape[|pre|..], values), st))
       <==> Readable(shape[|pre|..], values)
    decreases |shape| - |pre|
  {
    var t := shape[|pre|..];
    if t == "" {
      assert pre == shape;
      OnlyFinds(q, shape, rm);
    } else {
      OnlyWay(q, shape, rm, pre);
      assert t == [t[0]] + t[1..];
      MarksOfFirst(t[0], t[1..]);
      CountMarksSnoc(pre, t[0]);
      assert shape[|pre + [t[0]]|..] == t[1..];
      assert forall i :: 0 <= i < |t[1..]| ==> t[1..][i] == t[i + 1];
      if t[0] == PARAM_LABEL {
        ReadsParam(q, shape, rm, pre, values, st);
      } else if t[0] == ANY_LABEL {
        ReadsAny(q, shape, rm, pre, values, st);
      } else {
        ReadsBack(q, shape, rm, pre + [t[0]], values, st);
        StaticLeadsOn(q, shape, rm, pre, FillFrom(t[1..], values), st);
        assert ([t[0]] + FillFrom(t[1..], values))[1..] == FillFrom(t[1..], values);
      }
    }
  }

  lemma StaticLeadsOn(q: Query, shape: string, rm: RouteMethod, pre: string, rest: string, st: State)
    requires IsOnly(q, shape, rm) && pre < shape && !IsMark(shape[|pre|])
    ensures var o := Search(q, pre + [shape[|pre|]], rest, st);
            Search(q, pre, [shape[|pre|]] + rest, st) == if o.Miss? then Miss(o.st) else o
  {
    OnlyWay(q, shape, rm, pre);
    var all := [shape[|pre|]] + rest;
    assert all[1..] == rest && HasStatic(q, pre, all);
    forall st' ensures FromParam(q, pre, all, st') == Miss(st') {
      assert !HasParam(q, pre, all) && !HasAny(q, pre);
    }
  }

  lemma ReadsAny(q: Query, shape: string, rm: RouteMethod, pre: string, values: seq<string>, st: State)
    requires IsOnly(q, shape, rm) && pre < shape && shape[|pre|..] == [ANY_LABEL] && |values| == 1
    requires CountMarks(pre) < |st.values|
    ensures Reads(shape, rm, CountMarks(pre), values, Search(q, pre, FillFrom(shape[|pre|..], values), st))
  {
    AnyLeadsOn(q, shape, rm, pre, values[0], st);
    assert FillFrom([ANY_LABEL], values) == values[0] + "" == values[0];
    assert values == [values[0]];
  }

  lemma AnyLeadsOn(q: Query, shape: string, rm: RouteMethod, pre: string, rest: string, st: State)
    requires IsOnly(q, shape, rm) && pre < shape && shape[|pre|..] == [ANY_LABEL] && CountMarks(pre) < |st.values|
    ensures Search(q, pre, rest, st) == Hit(shape, rm, st.(values := st.values[CountMarks(pre) := rest]))
  {
    OnlyWay(q, shape, rm, pre);
    assert shape == pre + [ANY_LABEL];
    OnlyFinds(q, shape, rm);
    assert !HasStatic(q, pre, rest) && !HasParam(q, pre, rest) && HasAny(q, pre);
    assert FromParam(q, pre, rest, st) == FromAny(q, pre, rest, st);
    assert Search(q, pre, rest, st) == FromAny(q, pre, rest, st);
  }

  lemma ParamLeadsOn(q: Query, shape: string, rm: RouteMethod, pre: string, rest: string, st: State)
    requires IsOnly(q, shape, rm) && pre < shape && shape[|pre|] == PARAM_LABEL && CountMarks(pre) < |st.values|
    ensures rest == "" ==> Search(q, pre, rest, st) == Miss(st)
    ensures var n := TakeLength(q.skeleton, pre, rest);
            var o := Search(q, pre + [PARAM_LABEL], rest[n..], st.(values := st.values[CountMarks(pre) := rest[..n]]));
            rest != "" ==> if o.Miss? then Search(q, pre, rest, st).Miss? else Search(q, pre, rest, st) == o
  {
    OnlyWay(q, shape, rm, pre);
    assert !HasStatic(q, pre, rest) && !HasAny(q, pre);
    assert Search(q, pre, rest, st) == FromParam(q, pre, rest, st);
    assert rest == "" ==> !HasParam(q, pre, rest);
  }

  lemma {:induction false} ReadsParam(q: Query, shape: string, rm: RouteMethod, pre: string, values: seq<string>, st: State)
    requires IsOnly(q, shape, rm) && pre < shape && shape[|pre|] == PARAM_LABEL && IsShapeTail(shape[|pre|..])
    requires |values| == CountMarks(shape[|pre|..]) && CountMarks(pre) + |values| <= |st.values|
    requires CountMarks(shape[|pre|..]) == 1 + CountMarks(shape[|pre| + 1..])
    ensures Reads(shape, rm, CountMarks(pre), values, Search(q, pre, FillFrom(shape[|pre|..], values), st))
       <==> Readable(shape[|pre|..], values)
    decreases |shape| - |pre|, 0
  {
    OnlyWay(q, shape, rm, pre);
    CountMarksSnoc(pre, PARAM_LABEL);
    var t, next := shape[|pre|..], pre + [PARAM_LABEL];
    var tail := FillFrom(t[1..], values[1..]);
    assert t[1..] == shape[|next|..] && FillFrom(t, values) == values[0] + tail;
    assert t[1..] != "" ==> t[1..][0] == '/' && tail != "";
    if values[0] + tail == "" {
      ParamLeadsOn(q, shape, rm, pre, "", st);
      assert t[1..] == "";
    } else {
      TakesValue(q, shape, pre, values[0], tail);
      if TakeLength(q.skeleton, pre, values[0] + tail) == |values[0]| {
        ParamReadsOn(q, shape, rm, pre, values, tail, st);
        ReadsBack(q, shape, rm, next, values[1..], st.(values := st.values[CountMarks(pre) := values[0]]));
      } else {
        ParamReadsOther(q, shape, rm, pre, values, tail, st);
      }
    }
  }

  /** A parameter that takes its own value leaves the other values to the search behind it. */
  lemma ParamReadsOn(q: Query, shape: string, rm: RouteMethod, pre: string, values: seq<string>, tail: string, st: State)
    requires IsOnly(q, shape, rm) && pre < shape && shape[|pre|] == PARAM_LABEL
    requires values != [] && values[0] + tail != "" && CountMarks(pre) + |values| <= |st.values|
    requires TakeLength(q.skeleton, pre, values[0] + tail) == |values[0]|
    ensures Reads(shape, rm, CountMarks(pre), values, Search(q, pre, values[0] + tail, st))
       <==> Reads(shape, rm, CountMarks(pre) + 1, values[1..],
                  Search(q, pre + [PARAM_LABEL], tail, st.(values := st.values[CountMarks(pre) := values[0]])))
  {
    var k, rest := CountMarks(pre), values[0] + tail;
    var st1 := st.(values := st.values[k := values[0]]);
    assert rest[|values[0]|..] == tail && rest[..|values[0]|] == values[0];
    ParamLeadsOn(q, shape, rm, pre, rest, st);
    CountMarksSnoc(pre, PARAM_LABEL);
    SearchKeeps(q, pre + [PARAM_LABEL], tail, st1);
    ReadsOneMore(shape, rm, k, values, Search(q, pre, rest, st), Search(q, pre + [PARAM_LABEL], tail, st1));
  }

  /** The outcome behind a parameter that has taken its own value. */
  lemma ReadsOneMore(shape: string, rm: RouteMethod, k: nat, values: seq<string>, o: Outcome, next: Outcome)
    requires values != [] && (if next.Miss? then o.Miss? else o == next)
    requires k + |values| <= |next.st.values| && next.st.values[k] == values[0]
    ensures Reads(shape, rm, k, values, o) <==> Reads(shape, rm, k + 1, values[1..], next)
  {
    Sliced(next.st.values, k, values);
  }

  /** A parameter that takes less or more keeps it. */
  lemma ParamReadsOther(q: Query, shape: string, rm: RouteMethod, pre: string, values: seq<string>, tail: string, st: State)
    requires IsOnly(q, shape, rm) && pre < shape && shape[|pre|] == PARAM_LABEL
    requires values != [] && values[0] + tail != "" && CountMarks(pre) + |values| <= |st.values|
    requires TakeLength(q.skeleton, pre, values[0] + tail) != |values[0]|
    ensures !Reads(shape, rm, CountMarks(pre), values, Search(q, pre, values[0] + tail, st))
  {
    var k, rest := CountMarks(pre), values[0] + tail;
    var n := TakeLength(q.skeleton, pre, rest);
    var st1 := st.(values := st.values[k := rest[..n]]);
    ParamLeadsOn(q, shape, rm, pre, rest, st);
    CountMarksSnoc(pre, PARAM_LABEL);
    SearchKeeps(q, pre + [PARAM_LABEL], rest[n..], st1);
    var o := Search(q, pre, rest, st);
    if Reads(shape, rm, k, values, o) {
      Sliced(o.st.values, k, values);
    }
  }

  /** A parameter takes its own value off the front of the rest exactly when the value can be read back. */
  lemma TakesValue(q: Query, shape: string, pre: string, value: string, tail: string)
    requires pre < shape && shape[|pre|] == PARAM_LABEL
    requires if |shape| == |pre| + 1 then tail == "" else tail != "" && tail[0] == '/'
    requires IsEnd(q.skeleton, pre + [PARAM_LABEL]) <==> |shape| == |pre| + 1
    ensures var n := TakeLength(q.skeleton, pre, value + tail);
            && (n == |value| <==> |shape| == |pre| + 1 || '/' !in value)
            && ((value + tail)[..n] == value <==> n == |value|)
  {
    SegmentOf(value, tail);
    var n := TakeLength(q.skeleton, pre, value + tail);
    assert (value + tail)[..|value|] == value;
    assert (value + tail)[..n] == value ==> |(value + tail)[..n]| == |value|;
  }

  // ---------------------------------------------------------------------------
  // The round trip.

  /** The answer is the route, with these values under the names of its parameters. */
  ghost predicate SelectsAndBinds(q: Query, o: Outcome, rm: RouteMethod, values: seq<string>, slots: seq<string>,
                                  fallbacks: Fallbacks)
    requires |values| == |rm.params|
  {
    && Resolvable(o, slots)
    && Resolve(q, fallbacks, o, slots).info == Matched(rm)
    && Resolve(q, fallbacks, o, slots).values
       == seq(|values|, i requires 0 <= i < |values| => PathValue(rm.params[i], values[i]))
  }

  lemma OnlyRoute(rm: RouteMethod, autoHead: bool)
    requires rm.verb != ROUTE_NOT_FOUND
    ensures IsOnly(RequestQuery(BindAll([rm]), rm.verb, autoHead), Shape(rm.path), rm)
  {
    assert [rm][..|[rm]| - 1] == [] && BindAll([]) == map[];
    assert BindAll([rm]) == Bind(map[], Shape(rm.path), rm.verb, rm);
  }

  /**
   With one route registered, routing the path that `Reverse` prints for some values selects the route
   and binds exactly these values if and only if every value before more of the path has no slash and a
   value of a parameter that ends the path is not empty.
   */
  lemma ReverseThenRoute(rm: RouteMethod, autoHead: bool, values: seq<string>, slots: seq<string>, fallbacks: Fallbacks)
    requires rm.verb != ROUTE_NOT_FOUND && rm.params == Names(rm.path)
    requires !HasEscape(rm.path) && StarOnlyLast(rm.path)
    requires |values| == |rm.params| <= |slots|
    ensures var q := RequestQuery(BindAll([rm]), rm.verb, autoHead);
            SelectsAndBinds(q, Lookup(q, Reversed(rm.path, 0, values, 0), slots), rm, values, slots, fallbacks)
            <==> Readable(Shape(rm.path), values)
  {
    var q := RequestQuery(BindAll([rm]), rm.verb, autoHead);
    var shape := Shape(rm.path);
    var o := Lookup(q, Reversed(rm.path, 0, values, 0), slots);
    OnlyRoute(rm, autoHead);
    NamesMatchShape(rm.path);
    assert rm.path[0..] == rm.path && values[0..] == values;
    ReversedFillsShape(rm.path, 0, values, 0);
    ShapeIsShapeTail(rm.path);
    assert shape[|""|..] == shape;
    ReadsBack(q, shape, rm, "", values, State(slots, None));
    SearchKeeps(q, "", Reversed(rm.path, 0, values, 0), State(slots, None));
    SearchHitsBound(q, "", Reversed(rm.path, 0, values, 0), State(slots, None));
    BindsExactly(q, fallbacks, o, rm, values, slots);
  }

  lemma BindsExactly(q: Query, fallbacks: Fallbacks, o: Outcome, rm: RouteMethod, values: seq<string>, slots: seq<string>)
    requires IsOnly(q, Shape(rm.path), rm) && |o.st.values| == |slots|
    requires o.Hit? ==> IsBoundAt(q, o.shape, o.route)
    requires |values| == |rm.params| == CountMarks(Shape(rm.path)) <= |slots|
    ensures SelectsAndBinds(q, o, rm, values, slots, fallbacks) <==> Reads(Shape(rm.path), rm, 0, values, o)
  {
    var n, wanted := |values|, seq(|values|, i requires 0 <= i < |values| => PathValue(rm.params[i], values[i]));
    if o.Hit? {
      var got := Bindings(slots, o.st.values, n, rm.params);
      if got == wanted {
        forall i | 0 <= i < n ensures o.st.values[0..n][i] == values[i] {
          assert got[i] == wanted[i];
        }
      }
      if o.st.values[0..n] == values {
        forall i | 0 <= i < n ensures got[i] == wanted[i] {
          assert o.st.values[0..n][i] == values[i];
        }
      }
    }
  }
}
