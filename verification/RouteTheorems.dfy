/** What the reference search guarantees, whatever the tree that stores the routes. */
module RouteTheorems {
  import opened Wrappers
  import opened RoutePaths
  import opened RouteTable

  // ---------------------------------------------------------------------------
  // Places without a binding do not matter.

  /** Every place leads to a binding, except for plain ones that a removal may have left behind. */
  ghost predicate Covers(q: Query) {
    && q.entries.Keys <= q.skeleton
    && forall s :: s in q.skeleton ==> IsPlain(s) || exists k :: k in q.entries && s <= k
  }

  /** The query with no other places than the bound shapes. */
  function Bare(q: Query): Query {
    q.(skeleton := q.entries.Keys)
  }

  lemma PlainPrefix(a: string, s: string)
    requires a <= s && IsPlain(s)
    ensures IsPlain(a)
  {
    assert forall i :: 0 <= i < |a| ==> a[i] == s[i];
  }

  lemma LiveAfterMark(q: Query, pre: string, c: char)
    requires Covers(q) && IsMark(c)
    ensures Live(q.skeleton, pre + [c]) <==> Live(q.entries.Keys, pre + [c])
    ensures IsEnd(q.skeleton, pre + [c]) <==> IsEnd(q.entries.Keys, pre + [c])
  {
    var x := pre + [c];
    assert !IsPlain(x) by {
      assert x[|pre|] == c;
    }
    forall s | s in q.skeleton && x <= s ensures exists k :: k in q.entries && s <= k {
      if IsPlain(s) {
        PlainPrefix(x, s);
      }
    }
  }

  lemma LivePrefix(skeleton: set<string>, pre: string, c: char)
    ensures Live(skeleton, pre + [c]) ==> Live(skeleton, pre)
  {
    if Live(skeleton, pre + [c]) {
      var s :| s in skeleton && pre + [c] <= s;
      assert pre <= s;
    }
  }

  /** Nothing is bound below a place that only plain, unbound places continue. */
  lemma {:induction false} DeadSearch(q: Query, pre: string, rest: string, st: State)
    requires Covers(q) && !Live(q.entries.Keys, pre)
    ensures Search(q, pre, rest, st) == Miss(st)
    decreases Height(q.skeleton) - |pre|
  {
    assert pre !in q.entries by {
      assert pre in q.entries ==> Live(q.entries.Keys, pre);
    }
    forall c ensures !Live(q.entries.Keys, pre + [c]) {
      LivePrefix(q.entries.Keys, pre, c);
    }
    LiveAfterMark(q, pre, PARAM_LABEL);
    LiveAfterMark(q, pre, ANY_LABEL);
    assert !q.At(pre).methods.IsHandler() && q.At(pre).methods.NotFound().None?;
    assert FromParam(q, pre, rest, st) == Miss(st);
    if HasStatic(q, pre, rest) {
      DeadSearch(q, pre + [rest[0]], rest[1..], st);
    }
  }

  /** The answer depends on what is bound and on nothing else in the index. */
  lemma {:induction false} SkeletonIrrelevant(q: Query, pre: string, rest: string, st: State)
    requires Covers(q)
    ensures Search(q, pre, rest, st) == Search(Bare(q), pre, rest, st)
    decreases Height(q.skeleton) - |pre|, 3
  {
    BelowIrrelevant(q, pre, rest, st);
    BelowIrrelevant(q, pre, rest, Remember(st, pre));
  }

  lemma {:induction false} BelowIrrelevant(q: Query, pre: string, rest: string, st: State)
    requires Covers(q)
    ensures Below(q, pre, rest, st) == Below(Bare(q), pre, rest, st)
    decreases Height(q.skeleton) - |pre|, 2
  {
    if HasStatic(q, pre, rest) {
      var next := pre + [rest[0]];
      if Live(q.entries.Keys, next) {
        SkeletonIrrelevant(q, next, rest[1..], st);
      } else {
        DeadSearch(q, next, rest[1..], st);
      }
      FromParamIrrelevant(q, pre, rest, Search(q, next, rest[1..], st).st);
    } else {
      assert !HasStatic(Bare(q), pre, rest);
      FromParamIrrelevant(q, pre, rest, st);
    }
  }

  lemma {:induction false} FromParamIrrelevant(q: Query, pre: string, rest: string, st: State)
    requires Covers(q)
    ensures FromParam(q, pre, rest, st) == FromParam(Bare(q), pre, rest, st)
    decreases Height(q.skeleton) - |pre|, 1
  {
    LiveAfterMark(q, pre, PARAM_LABEL);
    if HasParam(q, pre, rest) {
      var k, n := CountMarks(pre), TakeLength(q.skeleton, pre, rest);
      assert n == TakeLength(Bare(q).skeleton, pre, rest);
      var o := Search(q, pre + [PARAM_LABEL], rest[n..], st.(values := Put(st.values, k, rest[..n])));
      SkeletonIrrelevant(q, pre + [PARAM_LABEL], rest[n..], st.(values := Put(st.values, k, rest[..n])));
      FromAnyIrrelevant(q, pre, rest, o.st.(values := Put(o.st.values, k, "")));
    } else {
      FromAnyIrrelevant(q, pre, rest, st);
    }
  }

  lemma FromAnyIrrelevant(q: Query, pre: string, rest: string, st: State)
    requires Covers(q)
    ensures FromAny(q, pre, rest, st) == FromAny(Bare(q), pre, rest, st)
  {
    LiveAfterMark(q, pre, ANY_LABEL);
  }

  // ---------------------------------------------------------------------------
  // Which paths find something.

  /**
   The rest of a shape, after `pre`, fits the rest of a path. Each mark takes what the index makes it
   take: a parameter takes one segment, or everything when nothing follows it.
   */
  ghost predicate Fits(q: Query, pre: string, t: string, rest: string)
    decreases |t|
  {
    if t == "" then rest == ""
    else if t[0] == ANY_LABEL then t == [ANY_LABEL]
    else if t[0] == PARAM_LABEL then
      rest != "" && Fits(q, pre + [PARAM_LABEL], t[1..], rest[TakeLength(q.skeleton, pre, rest)..])
    else rest != "" && rest[0] == t[0] && Fits(q, pre + [t[0]], t[1..], rest[1..])
  }

  /** Some bound shape that starts with `pre` fits the rest of the path. */
  ghost predicate SomeFits(q: Query, pre: string, rest: string) {
    exists s :: s in q.entries && pre <= s && Fits(q, pre, s[|pre|..], rest)
  }

  /** The outcome has come across a bound shape that fits. */
  predicate Found(o: Outcome) {
    o.Hit? || o.Stop? || o.st.best.Some?
  }

  /** Every entry of an index binds something, and a shape ends at its any mark. */
  ghost predicate Proper(q: Query) {
    && Covers(q)
    && (forall s :: s in q.entries ==> q.entries[s].methods.bound != map[])
    && (forall s, i :: s in q.entries && 0 <= i < |s| && s[i] == ANY_LABEL ==> i == |s| - 1)
  }

  /** `At` and its parts for a shape that binds something. */
  lemma BoundFinds(q: Query, shape: string)
    requires Proper(q)
    ensures shape in q.entries <==> q.At(shape).methods.IsHandler() || q.At(shape).methods.NotFound().Some?
  {
    if shape in q.entries {
      var m :| m in q.entries[shape].methods.bound;
    }
  }

  lemma FitsHere(q: Query, pre: string, rest: string)
    requires Proper(q)
    ensures rest == "" && pre in q.entries ==> SomeFits(q, pre, rest)
  {
    if pre in q.entries {
      assert pre[|pre|..] == "";
    }
  }

  lemma FitsNext(q: Query, pre: string, c: char, rest: string, rest': string)
    requires if c == PARAM_LABEL then rest != "" && rest' == rest[TakeLength(q.skeleton, pre, rest)..]
             else !IsMark(c) && rest != "" && rest[0] == c && rest' == rest[1..]
    ensures SomeFits(q, pre + [c], rest') ==> SomeFits(q, pre, rest)
  {
    if SomeFits(q, pre + [c], rest') {
      var s :| s in q.entries && pre + [c] <= s && Fits(q, pre + [c], s[|pre + [c]|..], rest');
      assert s[|pre|..][1..] == s[|pre| + 1..] && s[|pre|] == c;
    }
  }

  /** A fitting shape ends here, or goes on through a static byte, a parameter or an any mark. */
  lemma FitsCases(q: Query, pre: string, rest: string)
    requires Proper(q)
    ensures SomeFits(q, pre, rest) ==>
              || (rest == "" && pre in q.entries)
              || (HasStatic(q, pre, rest) && SomeFits(q, pre + [rest[0]], rest[1..]))
              || (HasParam(q, pre, rest)
                  && SomeFits(q, pre + [PARAM_LABEL], rest[TakeLength(q.skeleton, pre, rest)..]))
              || HasAny(q, pre)
  {
    if SomeFits(q, pre, rest) {
      var s :| s in q.entries && pre <= s && Fits(q, pre, s[|pre|..], rest);
      var t := s[|pre|..];
      if t == "" {
        assert s == pre;
      } else {
        assert pre + [t[0]] <= s && s[|pre + [t[0]]|..] == t[1..];
        assert s in q.skeleton;
        assert Live(q.skeleton, pre + [t[0]]);
      }
    }
  }

  /** The search finds something exactly when some bound shape fits, or when it came with a find. */
  lemma {:induction false} SearchFinds(q: Query, pre: string, rest: string, st: State)
    requires Proper(q)
    ensures Found(Search(q, pre, rest, st)) <==> SomeFits(q, pre, rest) || st.best.Some?
    decreases Height(q.skeleton) - |pre|, 3
  {
    BoundFinds(q, pre);
    FitsHere(q, pre, rest);
    BelowFinds(q, pre, rest, st);
    BelowFinds(q, pre, rest, Remember(st, pre));
  }

  lemma {:induction false} BelowFinds(q: Query, pre: string, rest: string, st: State)
    requires Proper(q)
    ensures Found(Below(q, pre, rest, st)) ==> SomeFits(q, pre, rest) || st.best.Some?
    ensures SomeFits(q, pre, rest) && !(rest == "" && pre in q.entries) ==> Found(Below(q, pre, rest, st))
    ensures st.best.Some? ==> Found(Below(q, pre, rest, st))
    decreases Height(q.skeleton) - |pre|, 2
  {
    BelowKeeps(q, pre, rest, st);
    FitsCases(q, pre, rest);
    if HasStatic(q, pre, rest) {
      var next := pre + [rest[0]];
      SearchFinds(q, next, rest[1..], st);
      FitsNext(q, pre, rest[0], rest, rest[1..]);
      FromParamFinds(q, pre, rest, Search(q, next, rest[1..], st).st);
    } else {
      FromParamFinds(q, pre, rest, st);
    }
  }

  lemma {:induction false} FromParamFinds(q: Query, pre: string, rest: string, st: State)
    requires Proper(q)
    ensures Found(FromParam(q, pre, rest, st)) ==> SomeFits(q, pre, rest) || st.best.Some?
    ensures st.best.Some? || HasAny(q, pre) ==> Found(FromParam(q, pre, rest, st))
    ensures HasParam(q, pre, rest) && SomeFits(q, pre + [PARAM_LABEL], rest[TakeLength(q.skeleton, pre, rest)..]) ==>
              Found(FromParam(q, pre, rest, st))
    decreases Height(q.skeleton) - |pre|, 1
  {
    AnyFits(q, pre, rest);
    if HasParam(q, pre, rest) {
      var k, n := CountMarks(pre), TakeLength(q.skeleton, pre, rest);
      SearchFinds(q, pre + [PARAM_LABEL], rest[n..], st.(values := Put(st.values, k, rest[..n])));
      FitsNext(q, pre, PARAM_LABEL, rest, rest[n..]);
    }
  }

  lemma AnyFits(q: Query, pre: string, rest: string)
    requires Proper(q)
    ensures HasAny(q, pre) ==> SomeFits(q, pre, rest)
  {
    if HasAny(q, pre) {
      LiveAfterMark(q, pre, ANY_LABEL);
      var s :| s in q.entries.Keys && pre + [ANY_LABEL] <= s;
      assert s[|pre|] == ANY_LABEL;
      assert s[|pre|..] == [ANY_LABEL];
    }
  }

  /** A search that stops at an any mark has a best match. */
  lemma {:induction false} StopHasBest(q: Query, pre: string, rest: string, st: State)
    ensures var o := Search(q, pre, rest, st); o.Stop? ==> o.st.best.Some?
    decreases Height(q.skeleton) - |pre|, 3
  {
    BelowStopHasBest(q, pre, rest, st);
    BelowStopHasBest(q, pre, rest, Remember(st, pre));
  }

  lemma {:induction false} BelowStopHasBest(q: Query, pre: string, rest: string, st: State)
    ensures var o := Below(q, pre, rest, st); o.Stop? ==> o.st.best.Some?
    decreases Height(q.skeleton) - |pre|, 2
  {
    if HasStatic(q, pre, rest) {
      StopHasBest(q, pre + [rest[0]], rest[1..], st);
      FromParamStopHasBest(q, pre, rest, Search(q, pre + [rest[0]], rest[1..], st).st);
    } else {
      FromParamStopHasBest(q, pre, rest, st);
    }
  }

  lemma {:induction false} FromParamStopHasBest(q: Query, pre: string, rest: string, st: State)
    ensures var o := FromParam(q, pre, rest, st); o.Stop? ==> o.st.best.Some?
    decreases Height(q.skeleton) - |pre|, 1
  {
    if HasParam(q, pre, rest) {
      var k, n := CountMarks(pre), TakeLength(q.skeleton, pre, rest);
      StopHasBest(q, pre + [PARAM_LABEL], rest[n..], st.(values := Put(st.values, k, rest[..n])));
    }
  }

  /** A request gets the not-found answer exactly when no registered shape fits its path. */
  lemma NotFoundIffNothingFits(q: Query, path: string, values: seq<string>)
    requires Proper(q)
    ensures var o := Lookup(q, path, values);
            (!o.Hit? && o.st.best.None?) <==> !SomeFits(q, "", path)
  {
    SearchFinds(q, "", path, State(values, None));
    StopHasBest(q, "", path, State(values, None));
  }

  // ---------------------------------------------------------------------------
  // What a hit means.

  /** The shape that was hit fits the path, and its values put back into it give the path. */
  ghost predicate HitOk(q: Query, pre: string, rest: string, st: State, o: Outcome) {
    o.Hit? ==>
      && pre <= o.shape && Fits(q, pre, o.shape[|pre|..], rest)
      && (CountMarks(o.shape) <= |st.values| ==> Fill(o.shape, o.st.values) == Fill(pre, st.values) + rest)
  }

  lemma {:induction false} SearchHits(q: Query, pre: string, rest: string, st: State)
    ensures HitOk(q, pre, rest, st, Search(q, pre, rest, st))
    decreases Height(q.skeleton) - |pre|, 3
  {
    BelowHits(q, pre, rest, st);
    BelowHits(q, pre, rest, Remember(st, pre));
    assert pre[|pre|..] == "";
    assert rest == "" ==> Fill(pre, st.values) + rest == Fill(pre, st.values);
  }

  lemma {:induction false} BelowHits(q: Query, pre: string, rest: string, st: State)
    ensures HitOk(q, pre, rest, st, Below(q, pre, rest, st))
    decreases Height(q.skeleton) - |pre|, 2
  {
    if HasStatic(q, pre, rest) {
      var next := pre + [rest[0]];
      var o := Search(q, next, rest[1..], st);
      SearchHits(q, next, rest[1..], st);
      StaticHit(q, pre, rest, st, o);
      if o.Miss? {
        CountMarksSnoc(pre, rest[0]);
        SearchKeeps(q, next, rest[1..], st);
        FromParamHits(q, pre, rest, o.st);
        HitFromLater(q, pre, rest, st, o.st, FromParam(q, pre, rest, o.st));
      }
    } else {
      FromParamHits(q, pre, rest, st);
    }
  }

  lemma StaticHit(q: Query, pre: string, rest: string, st: State, o: Outcome)
    requires rest != "" && !IsMark(rest[0]) && HitOk(q, pre + [rest[0]], rest[1..], st, o)
    ensures HitOk(q, pre, rest, st, o)
  {
    if o.Hit? {
      HitThrough(q, pre, rest[0], o.shape);
      FillPlain(pre, [rest[0]], st.values);
      assert Fill(pre, st.values) + [rest[0]] + rest[1..] == Fill(pre, st.values) + rest;
    }
  }

  lemma ParamHit(q: Query, pre: string, rest: string, st: State, n: nat, o: Outcome)
    requires rest != "" && n == TakeLength(q.skeleton, pre, rest)
    requires HitOk(q, pre + [PARAM_LABEL], rest[n..], st.(values := Put(st.values, CountMarks(pre), rest[..n])), o)
    ensures HitOk(q, pre, rest, st, o)
  {
    if o.Hit? {
      var k, next := CountMarks(pre), pre + [PARAM_LABEL];
      HitThrough(q, pre, PARAM_LABEL, o.shape);
      CountMarksSnoc(pre, PARAM_LABEL);
      CountMarksPrefix(next, o.shape);
      if CountMarks(o.shape) <= |st.values| {
        FillOne(pre, st.values, rest, n);
      }
    }
  }

  lemma FillOne(pre: string, values: seq<string>, rest: string, n: nat)
    requires CountMarks(pre) < |values| && n <= |rest|
    ensures Fill(pre + [PARAM_LABEL], values[CountMarks(pre) := rest[..n]]) + rest[n..] == Fill(pre, values) + rest
  {
    var values' := values[CountMarks(pre) := rest[..n]];
    FillMark(pre, PARAM_LABEL, values');
    FillFrame(pre, values, values');
    assert Fill(pre, values) + rest[..n] + rest[n..] == Fill(pre, values) + rest;
  }

  /** A later alternative may start from a state whose later values have changed. */
  lemma HitFromLater(q: Query, pre: string, rest: string, st: State, st': State, o: Outcome)
    requires Keeps(pre, st, st') && HitOk(q, pre, rest, st', o)
    ensures HitOk(q, pre, rest, st, o)
  {
    FillFrame(pre, st.values, st'.values);
  }

  lemma HitThrough(q: Query, pre: string, c: char, shape: string)
    requires pre + [c] <= shape
    ensures pre <= shape && |shape[|pre|..]| > 0 && shape[|pre|..][0] == c
    ensures shape[|pre|..][1..] == shape[|pre + [c]|..]
  {
  }

  lemma {:induction false} FromParamHits(q: Query, pre: string, rest: string, st: State)
    ensures HitOk(q, pre, rest, st, FromParam(q, pre, rest, st))
    decreases Height(q.skeleton) - |pre|, 1
  {
    if HasParam(q, pre, rest) {
      var k, n := CountMarks(pre), TakeLength(q.skeleton, pre, rest);
      var next, st' := pre + [PARAM_LABEL], st.(values := Put(st.values, k, rest[..n]));
      var o := Search(q, next, rest[n..], st');
      SearchHits(q, next, rest[n..], st');
      ParamHit(q, pre, rest, st, n, o);
      if o.Miss? {
        CountMarksSnoc(pre, PARAM_LABEL);
        SearchKeeps(q, next, rest[n..], st');
        var later := o.st.(values := Put(o.st.values, k, ""));
        FromAnyHits(q, pre, rest, later);
        HitFromLater(q, pre, rest, st, later, FromAny(q, pre, rest, later));
      }
    } else {
      FromAnyHits(q, pre, rest, st);
    }
  }

  lemma FromAnyHits(q: Query, pre: string, rest: string, st: State)
    ensures HitOk(q, pre, rest, st, FromAny(q, pre, rest, st))
  {
    var k, shape := CountMarks(pre), pre + [ANY_LABEL];
    CountMarksSnoc(pre, ANY_LABEL);
    assert shape[|pre|..] == [ANY_LABEL];
    if HasAny(q, pre) && k < |st.values| {
      var values := st.values[k := rest];
      FillMark(pre, ANY_LABEL, values);
      FillFrame(pre, st.values, values);
    }
  }

  /**
   The values that a matched route is given, put back in the place of its parameters, give the path of
   the request; and the route is registered under the shape that fits.
   */
  lemma MatchReadsPath(q: Query, path: string, values: seq<string>)
    requires Proper(q)
    ensures var o := Lookup(q, path, values);
            o.Hit? ==>
              && IsBoundAt(q, o.shape, o.route) && Fits(q, "", o.shape, path)
              && (CountMarks(o.shape) <= |values| ==> Fill(o.shape, o.st.values) == path)
  {
    SearchHits(q, "", path, State(values, None));
    SearchHitsBound(q, "", path, State(values, None));
    var o := Lookup(q, path, values);
    if o.Hit? {
      assert o.shape[|""|..] == o.shape && "" + path == path;
    }
  }

  lemma {:induction false} ExactRouteIsReached(q: Query, path: string, pre: string, rest: string, st: State)
    requires Covers(q) && IsPlain(path) && pre + rest == path && path in q.entries
    requires q.At(path).methods.IsHandler() && q.At(path).methods.Find(q.verb, true, q.autoHead).Some?
    ensures Search(q, pre, rest, st)
         == Hit(path, q.At(path).methods.Find(q.verb, true, q.autoHead).value, Remember(st, path))
    decreases |rest|
  {
    if rest == "" {
      assert pre == path;
    } else {
      var next := pre + [rest[0]];
      assert next + rest[1..] == path;
      assert !IsMark(path[|pre|]) && path[|pre|] == rest[0];
      assert path in q.skeleton && next <= path;
      ExactRouteIsReached(q, path, next, rest[1..], st);
    }
  }

  /** A path without marks that has a handler for the method reaches it, whatever else is registered. */
  lemma ExactRouteWins(q: Query, path: string, values: seq<string>)
    requires Covers(q) && IsPlain(path) && path in q.entries
    requires q.At(path).methods.IsHandler() && q.At(path).methods.Find(q.verb, true, q.autoHead).Some?
    ensures var o := Lookup(q, path, values);
            o.Hit? && o.shape == path && q.At(path).methods.Find(q.verb, true, q.autoHead) == Some(o.route)
  {
    ExactRouteIsReached(q, path, "", path, State(values, None));
  }
}
