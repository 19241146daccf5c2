/** Which of the registered routes answers a request, told without the search. */
module RoutePriority {
  import opened Wrappers
  import opened RoutePaths
  import opened RouteTable
  import opened RouteTheorems

  /** A static byte comes before a parameter, and a parameter before an any mark. */
  function Order(c: char): nat {
    if c == '*' then 2 else if c == ':' then 1 else 0
  }

  /** The shape ends where the other one goes on, or goes on with what comes first. */
  ghost predicate Precedes(s: string, t: string) {
    exists i :: PartsAt(s, t, i)
  }

  ghost predicate PartsAt(s: string, t: string, i: int) {
    0 <= i <= |s| && i < |t| && s[..i] == t[..i] && (i < |s| ==> Order(s[i]) < Order(t[i]))
  }

  predicate EndsWithAny(shape: string) {
    shape != "" && shape[|shape| - 1] == '*'
  }

  /**
   What a shape answers to a request: the request's own method first, then GET for HEAD, then the route for any method;
   a not-found route answers for an any shape without these, or when it is all that the shape has.
   */
  function AnswerAt(q: Query, shape: string): Option<RouteMethod> {
    if shape !in q.entries then None
    else
      var bound := q.entries[shape].methods.bound;
      if q.verb in bound then Some(bound[q.verb])
      else if q.verb == "HEAD" && q.autoHead && "GET" in bound then Some(bound["GET"])
      else if "echo_route_any" in bound then Some(bound["echo_route_any"])
      else if "echo_route_not_found" in bound && (EndsWithAny(shape) || bound.Keys == {"echo_route_not_found"}) then
        Some(bound["echo_route_not_found"])
      else None
  }

  /** The search goes no further than this shape: it answers, or it is an any shape. */
  predicate EndsAt(q: Query, shape: string) {
    shape in q.entries && (EndsWithAny(shape) || AnswerAt(q, shape).Some?)
  }

  /** The shape starts with `pre` and fits what is left of the path after that; below `pre` if it is `strict`. */
  ghost predicate FitsFrom(q: Query, pre: string, rest: string, strict: bool, s: string) {
    s in q.entries && pre <= s && (strict ==> s != pre) && Fits(q, pre, s[|pre|..], rest)
  }

  /** The shape is the first fitting one at which a search can end. */
  ghost predicate EndsFirst(q: Query, pre: string, rest: string, strict: bool, t: string) {
    && FitsFrom(q, pre, rest, strict, t) && EndsAt(q, t)
    && forall s :: FitsFrom(q, pre, rest, strict, s) && Precedes(s, t) ==> !EndsAt(q, s)
  }

  /** The outcome is that of the first fitting shape at which a search can end. */
  ghost predicate IsOfFirst(q: Query, pre: string, rest: string, strict: bool, o: Outcome) {
    match o
    case Hit(shape, route, _) => EndsFirst(q, pre, rest, strict, shape) && AnswerAt(q, shape) == Some(route)
    case Stop(_) => exists t :: EndsFirst(q, pre, rest, strict, t) && AnswerAt(q, t).None?
    case Miss(_) => forall s :: FitsFrom(q, pre, rest, strict, s) ==> !EndsAt(q, s)
  }

  /** No fitting shape that goes on with something before an any mark, or before a parameter, ends a search. */
  ghost predicate Missed(q: Query, pre: string, rest: string, order: nat) {
    forall s :: FitsFrom(q, pre, rest, true, s) && |s| > |pre| && Order(s[|pre|]) < order ==> !EndsAt(q, s)
  }

  /** How a fitting shape goes on. */
  lemma GoesOn(q: Query, pre: string, rest: string, s: string)
    requires Proper(q) && FitsFrom(q, pre, rest, true, s)
    ensures |s| > |pre|
    ensures var c := s[|pre|];
            if c == ANY_LABEL then s == pre + [ANY_LABEL] && HasAny(q, pre)
            else if c == PARAM_LABEL then
              HasParam(q, pre, rest) && FitsFrom(q, pre + [c], rest[TakeLength(q.skeleton, pre, rest)..], false, s)
            else HasStatic(q, pre, rest) && c == rest[0] && FitsFrom(q, pre + [c], rest[1..], false, s)
  {
    var t := s[|pre|..];
    assert t != "" by {
      assert s == pre + t;
    }
    assert pre + [t[0]] <= s && s[|pre + [t[0]]|..] == t[1..] && s in q.skeleton;
    assert Live(q.skeleton, pre + [t[0]]);
  }

  /** What fits after the next byte fits from here. */
  lemma ComesFrom(q: Query, pre: string, c: char, rest: string, rest': string, s: string)
    requires if c == PARAM_LABEL then rest != "" && rest' == rest[TakeLength(q.skeleton, pre, rest)..]
             else !IsMark(c) && rest != "" && rest[0] == c && rest' == rest[1..]
    requires FitsFrom(q, pre + [c], rest', false, s)
    ensures FitsFrom(q, pre, rest, true, s) && s[|pre|] == c
  {
    assert s[|pre|..][1..] == s[|pre| + 1..] && s[|pre|] == c;
  }

  lemma PrecedesAfter(pre: string, s: string, t: string)
    requires pre <= s && pre <= t && Precedes(s, t)
    ensures t != pre
    ensures s != pre ==> s[|pre|] == t[|pre|] || Order(s[|pre|]) < Order(t[|pre|])
  {
    var i :| PartsAt(s, t, i);
    assert forall j :: 0 <= j < |pre| ==> s[j] == t[j];
    if i > |pre| {
      assert s[..i][|pre|] == t[..i][|pre|];
    }
  }

  /** The outcome behind the next byte is that from here, when nothing that comes before ends a search. */
  lemma OutcomeStays(q: Query, pre: string, c: char, rest: string, rest': string, o: Outcome)
    requires Proper(q) && Missed(q, pre, rest, Order(c)) && !o.Miss?
    requires if c == PARAM_LABEL then rest != "" && rest' == rest[TakeLength(q.skeleton, pre, rest)..]
             else !IsMark(c) && rest != "" && rest[0] == c && rest' == rest[1..]
    requires IsOfFirst(q, pre + [c], rest', false, o)
    ensures IsOfFirst(q, pre, rest, true, o)
  {
    forall t | EndsFirst(q, pre + [c], rest', false, t) ensures EndsFirst(q, pre, rest, true, t) {
      ComesFrom(q, pre, c, rest, rest', t);
      forall s | FitsFrom(q, pre, rest, true, s) && Precedes(s, t) ensures !EndsAt(q, s) {
        GoesOn(q, pre, rest, s);
        PrecedesAfter(pre, s, t);
      }
    }
  }

  lemma FirstOfAny(q: Query, pre: string, rest: string, st: State)
    requires Proper(q) && Missed(q, pre, rest, 2)
    ensures IsOfFirst(q, pre, rest, true, FromAny(q, pre, rest, st))
  {
    var shape, o := pre + [ANY_LABEL], FromAny(q, pre, rest, st);
    if HasAny(q, pre) {
      AnyEndsFirst(q, pre, rest);
      FindAnswers(q, shape);
    } else {
      forall s | FitsFrom(q, pre, rest, true, s) ensures !EndsAt(q, s) {
        GoesOn(q, pre, rest, s);
      }
    }
  }

  lemma AnyEndsFirst(q: Query, pre: string, rest: string)
    requires Proper(q) && Missed(q, pre, rest, 2) && HasAny(q, pre)
    ensures pre + [ANY_LABEL] in q.entries && EndsWithAny(pre + [ANY_LABEL])
    ensures EndsFirst(q, pre, rest, true, pre + [ANY_LABEL])
  {
    var shape := pre + [ANY_LABEL];
    AnyIsBound(q, pre);
    assert shape[|pre|..] == [ANY_LABEL];
    forall s | FitsFrom(q, pre, rest, true, s) && Precedes(s, shape) ensures !EndsAt(q, s) {
      GoesOn(q, pre, rest, s);
      if s == shape {
        PrecedesNotItself(s);
      }
    }
  }

  lemma PrecedesNotItself(s: string)
    ensures !Precedes(s, s)
  {
  }

  lemma AnyIsBound(q: Query, pre: string)
    requires Proper(q) && HasAny(q, pre)
    ensures pre + [ANY_LABEL] in q.entries
  {
    LiveAfterMark(q, pre, ANY_LABEL);
    var s :| s in q.entries.Keys && pre + [ANY_LABEL] <= s;
    assert s[|pre|] == ANY_LABEL;
    assert s == pre + [ANY_LABEL];
  }

  /** What the search asks the handlers of a shape for is what the shape answers. */
  lemma FindAnswers(q: Query, shape: string)
    requires shape in q.entries
    ensures var m := q.At(shape).methods;
            AnswerAt(q, shape) ==
            if m.Find(q.verb, true, q.autoHead).Some? then m.Find(q.verb, true, q.autoHead)
            else if EndsWithAny(shape) || !m.IsHandler() then m.NotFound()
            else None
  {
  }

  /** A place that is not itself an any shape. */
  predicate IsOpen(pre: string) {
    !EndsWithAny(pre)
  }

  lemma {:induction false} FirstFromParam(q: Query, pre: string, rest: string, st: State)
    requires Proper(q) && IsOpen(pre) && Missed(q, pre, rest, 1)
    ensures IsOfFirst(q, pre, rest, true, FromParam(q, pre, rest, st))
    decreases Height(q.skeleton) - |pre|, 1
  {
    if HasParam(q, pre, rest) {
      var k, n := CountMarks(pre), TakeLength(q.skeleton, pre, rest);
      var st1 := st.(values := Put(st.values, k, rest[..n]));
      var o := Search(q, pre + [PARAM_LABEL], rest[n..], st1);
      FirstOfSearch(q, pre + [PARAM_LABEL], rest[n..], st1);
      if o.Miss? {
        MissedMore(q, pre, PARAM_LABEL, rest, rest[n..], o);
        FirstOfAny(q, pre, rest, o.st.(values := Put(o.st.values, k, "")));
      } else {
        OutcomeStays(q, pre, PARAM_LABEL, rest, rest[n..], o);
      }
    } else {
      MissedWithout(q, pre, rest, 1);
      FirstOfAny(q, pre, rest, st);
    }
  }

  /** A miss behind the next byte rules out what goes on with that byte. */
  lemma MissedMore(q: Query, pre: string, c: char, rest: string, rest': string, o: Outcome)
    requires Proper(q) && Missed(q, pre, rest, Order(c)) && c != ANY_LABEL && o.Miss?
    requires if c == PARAM_LABEL then rest != "" && rest' == rest[TakeLength(q.skeleton, pre, rest)..]
             else rest != "" && rest[0] == c && rest' == rest[1..]
    requires IsOfFirst(q, pre + [c], rest', false, o)
    ensures Missed(q, pre, rest, Order(c) + 1)
  {
    forall s | FitsFrom(q, pre, rest, true, s) && |s| > |pre| && Order(s[|pre|]) < Order(c) + 1 ensures !EndsAt(q, s) {
      GoesOn(q, pre, rest, s);
    }
  }

  /** Nothing goes on with what the index does not have. */
  lemma MissedWithout(q: Query, pre: string, rest: string, order: nat)
    requires Proper(q) && Missed(q, pre, rest, order)
    requires (order == 0 && !HasStatic(q, pre, rest)) || (order == 1 && !HasParam(q, pre, rest))
    ensures Missed(q, pre, rest, order + 1)
  {
    forall s | FitsFrom(q, pre, rest, true, s) && |s| > |pre| && Order(s[|pre|]) < order + 1 ensures !EndsAt(q, s) {
      GoesOn(q, pre, rest, s);
    }
  }

  lemma {:induction false} FirstOfBelow(q: Query, pre: string, rest: string, st: State)
    requires Proper(q) && IsOpen(pre)
    ensures IsOfFirst(q, pre, rest, true, Below(q, pre, rest, st))
    decreases Height(q.skeleton) - |pre|, 2
  {
    if HasStatic(q, pre, rest) {
      var o := Search(q, pre + [rest[0]], rest[1..], st);
      FirstOfSearch(q, pre + [rest[0]], rest[1..], st);
      if o.Miss? {
        MissedMore(q, pre, rest[0], rest, rest[1..], o);
        FirstFromParam(q, pre, rest, o.st);
      } else {
        OutcomeStays(q, pre, rest[0], rest, rest[1..], o);
      }
    } else {
      MissedWithout(q, pre, rest, 0);
      FirstFromParam(q, pre, rest, st);
    }
  }

  /** A shape fits from a place if it is the place itself, at the end of the path, or fits below it. */
  lemma FitsHereOrBelow(q: Query, pre: string, rest: string, s: string)
    ensures FitsFrom(q, pre, rest, false, s)
       <==> (s == pre && pre in q.entries && rest == "") || FitsFrom(q, pre, rest, true, s)
  {
    if s == pre {
      assert s[|pre|..] == "";
    }
  }

  lemma {:induction false} FirstOfSearch(q: Query, pre: string, rest: string, st: State)
    requires Proper(q) && IsOpen(pre)
    ensures IsOfFirst(q, pre, rest, false, Search(q, pre, rest, st))
    decreases Height(q.skeleton) - |pre|, 3
  {
    var o := Search(q, pre, rest, st);
    BoundFinds(q, pre);
    if pre in q.entries {
      FindAnswers(q, pre);
    }
    if rest == "" && EndsAt(q, pre) {
      HereEndsFirst(q, pre);
    } else {
      FirstOfBelow(q, pre, rest, st);
      FirstOfBelow(q, pre, rest, Remember(st, pre));
      HereDoesNotEnd(q, pre, rest, o);
    }
  }

  lemma HereEndsFirst(q: Query, pre: string)
    requires EndsAt(q, pre)
    ensures EndsFirst(q, pre, "", false, pre)
  {
    assert pre[|pre|..] == "";
    NothingPrecedes(pre);
  }

  lemma NothingPrecedes(pre: string)
    ensures forall s :: pre <= s ==> !Precedes(s, pre)
  {
    forall s | pre <= s ensures !Precedes(s, pre) {
      if Precedes(s, pre) {
        PrecedesAfter(pre, s, pre);
      }
    }
  }

  lemma HereDoesNotEnd(q: Query, pre: string, rest: string, o: Outcome)
    requires IsOfFirst(q, pre, rest, true, o) && (rest == "" ==> !EndsAt(q, pre))
    ensures IsOfFirst(q, pre, rest, false, o)
  {
    forall s ensures FitsFrom(q, pre, rest, false, s)
       <==> (s == pre && pre in q.entries && rest == "") || FitsFrom(q, pre, rest, true, s) {
      FitsHereOrBelow(q, pre, rest, s);
    }
    forall t | EndsFirst(q, pre, rest, true, t) ensures EndsFirst(q, pre, rest, false, t) {
    }
  }

  // ---------------------------------------------------------------------------
  // The best match, when no handler is found.

  /** A shape with a handler for some method, or an any shape. */
  ghost predicate IsKept(q: Query, s: string) {
    s in q.entries && (EndsWithAny(s) || exists m :: m in q.entries[s].methods.bound && m != "echo_route_not_found")
  }

  ghost predicate IsFirstKept(q: Query, pre: string, rest: string, strict: bool, b: string) {
    && FitsFrom(q, pre, rest, strict, b) && IsKept(q, b)
    && forall s :: FitsFrom(q, pre, rest, strict, s) && Precedes(s, b) ==> !IsKept(q, s)
  }

  /** The best match is the first that fits, unless there was one before. */
  ghost predicate BestIsFirst(q: Query, pre: string, rest: string, strict: bool, before: Option<string>, o: Outcome) {
    o.Hit?
    || (if before.Some? then o.st.best == before
        else if o.st.best.Some? then IsFirstKept(q, pre, rest, strict, o.st.best.value)
        else o.Miss? && forall s :: FitsFrom(q, pre, rest, strict, s) ==> !IsKept(q, s))
  }

  ghost predicate NoneKept(q: Query, pre: string, rest: string, order: nat) {
    forall s :: FitsFrom(q, pre, rest, true, s) && |s| > |pre| && Order(s[|pre|]) < order ==> !IsKept(q, s)
  }

  lemma KeptStays(q: Query, pre: string, c: char, rest: string, rest': string, b: string)
    requires Proper(q) && NoneKept(q, pre, rest, Order(c))
    requires if c == PARAM_LABEL then rest != "" && rest' == rest[TakeLength(q.skeleton, pre, rest)..]
             else !IsMark(c) && rest != "" && rest[0] == c && rest' == rest[1..]
    requires IsFirstKept(q, pre + [c], rest', false, b)
    ensures IsFirstKept(q, pre, rest, true, b)
  {
    ComesFrom(q, pre, c, rest, rest', b);
    forall s | FitsFrom(q, pre, rest, true, s) && Precedes(s, b) ensures !IsKept(q, s) {
      GoesOn(q, pre, rest, s);
      PrecedesAfter(pre, s, b);
    }
  }

  lemma NoneKeptMore(q: Query, pre: string, c: char, rest: string, rest': string)
    requires Proper(q) && NoneKept(q, pre, rest, Order(c)) && c != ANY_LABEL
    requires if c == PARAM_LABEL then rest != "" && rest' == rest[TakeLength(q.skeleton, pre, rest)..]
             else rest != "" && rest[0] == c && rest' == rest[1..]
    requires forall s :: FitsFrom(q, pre + [c], rest', false, s) ==> !IsKept(q, s)
    ensures NoneKept(q, pre, rest, Order(c) + 1)
  {
    forall s | FitsFrom(q, pre, rest, true, s) && |s| > |pre| && Order(s[|pre|]) < Order(c) + 1 ensures !IsKept(q, s) {
      GoesOn(q, pre, rest, s);
    }
  }

  lemma NoneKeptWithout(q: Query, pre: string, rest: string, order: nat)
    requires Proper(q) && NoneKept(q, pre, rest, order)
    requires (order == 0 && !HasStatic(q, pre, rest)) || (order == 1 && !HasParam(q, pre, rest))
    ensures NoneKept(q, pre, rest, order + 1)
  {
    forall s | FitsFrom(q, pre, rest, true, s) && |s| > |pre| && Order(s[|pre|]) < order + 1 ensures !IsKept(q, s) {
      GoesOn(q, pre, rest, s);
    }
  }

  lemma AnyKeepsBest(q: Query, pre: string, rest: string, st: State)
    ensures var o := FromAny(q, pre, rest, st);
            && (!HasAny(q, pre) ==> o == Miss(st))
            && (HasAny(q, pre) && !o.Hit? ==> o.Stop? && o.st.best == Remember(st, pre + [ANY_LABEL]).best)
  {
  }

  lemma BestOfAny(q: Query, pre: string, rest: string, st: State)
    requires Proper(q) && (st.best.None? ==> NoneKept(q, pre, rest, 2))
    ensures BestIsFirst(q, pre, rest, true, st.best, FromAny(q, pre, rest, st))
  {
    AnyKeepsBest(q, pre, rest, st);
    if st.best.None? {
      if HasAny(q, pre) {
        AnyIsFirstKept(q, pre, rest);
      } else {
        forall s | FitsFrom(q, pre, rest, true, s) ensures !IsKept(q, s) {
          GoesOn(q, pre, rest, s);
        }
      }
    }
  }

  lemma AnyIsFirstKept(q: Query, pre: string, rest: string)
    requires Proper(q) && NoneKept(q, pre, rest, 2) && HasAny(q, pre)
    ensures IsFirstKept(q, pre, rest, true, pre + [ANY_LABEL])
  {
    var shape := pre + [ANY_LABEL];
    AnyIsBound(q, pre);
    assert shape[|pre|..] == [ANY_LABEL];
    forall s | FitsFrom(q, pre, rest, true, s) && Precedes(s, shape) ensures !IsKept(q, s) {
      GoesOn(q, pre, rest, s);
      if s == shape {
        PrecedesNotItself(s);
      }
    }
  }

  lemma {:induction false} BestOfParam(q: Query, pre: string, rest: string, st: State)
    requires Proper(q) && IsOpen(pre) && (st.best.None? ==> NoneKept(q, pre, rest, 1))
    ensures BestIsFirst(q, pre, rest, true, st.best, FromParam(q, pre, rest, st))
    decreases Height(q.skeleton) - |pre|, 1
  {
    if HasParam(q, pre, rest) {
      var k, n := CountMarks(pre), TakeLength(q.skeleton, pre, rest);
      var st1 := st.(values := Put(st.values, k, rest[..n]));
      var o := Search(q, pre + [PARAM_LABEL], rest[n..], st1);
      BestOfSearch(q, pre + [PARAM_LABEL], rest[n..], st1);
      BestBehind(q, pre, PARAM_LABEL, rest, rest[n..], st.best, o);
      if o.Miss? {
        BestOfAny(q, pre, rest, o.st.(values := Put(o.st.values, k, "")));
      }
    } else {
      if st.best.None? {
        NoneKeptWithout(q, pre, rest, 1);
      }
      BestOfAny(q, pre, rest, st);
    }
  }

  /** What is known of the best match after the search behind the next byte. */
  lemma BestBehind(q: Query, pre: string, c: char, rest: string, rest': string, before: Option<string>, o: Outcome)
    requires Proper(q) && (before.None? ==> NoneKept(q, pre, rest, Order(c))) && c != ANY_LABEL
    requires if c == PARAM_LABEL then rest != "" && rest' == rest[TakeLength(q.skeleton, pre, rest)..]
             else !IsMark(c) && rest != "" && rest[0] == c && rest' == rest[1..]
    requires BestIsFirst(q, pre + [c], rest', false, before, o)
    ensures !o.Hit? && before.Some? ==> o.st.best == before
    ensures !o.Hit? && before.None? && o.st.best.Some? ==> IsFirstKept(q, pre, rest, true, o.st.best.value)
    ensures !o.Hit? && o.st.best.None? ==> o.Miss? && NoneKept(q, pre, rest, Order(c) + 1)
  {
    if !o.Hit? && before.None? {
      if o.st.best.Some? {
        KeptStays(q, pre, c, rest, rest', o.st.best.value);
      } else {
        NoneKeptMore(q, pre, c, rest, rest');
      }
    }
  }

  lemma {:induction false} BestOfBelow(q: Query, pre: string, rest: string, st: State)
    requires Proper(q) && IsOpen(pre)
    ensures BestIsFirst(q, pre, rest, true, st.best, Below(q, pre, rest, st))
    decreases Height(q.skeleton) - |pre|, 2
  {
    if HasStatic(q, pre, rest) {
      var o := Search(q, pre + [rest[0]], rest[1..], st);
      BestOfSearch(q, pre + [rest[0]], rest[1..], st);
      BestBehind(q, pre, rest[0], rest, rest[1..], st.best, o);
      if o.Miss? {
        BestOfParam(q, pre, rest, o.st);
      }
    } else {
      if st.best.None? {
        NoneKeptWithout(q, pre, rest, 0);
      }
      BestOfParam(q, pre, rest, st);
    }
  }

  lemma {:induction false} BestOfSearch(q: Query, pre: string, rest: string, st: State)
    requires Proper(q) && IsOpen(pre)
    ensures BestIsFirst(q, pre, rest, false, st.best, Search(q, pre, rest, st))
    decreases Height(q.skeleton) - |pre|, 3
  {
    BoundFinds(q, pre);
    BestOfBelow(q, pre, rest, st);
    BestOfBelow(q, pre, rest, Remember(st, pre));
    if rest == "" && IsKept(q, pre) {
      HereIsFirstKept(q, pre);
    } else {
      forall s ensures FitsFrom(q, pre, rest, false, s)
         <==> (s == pre && pre in q.entries && rest == "") || FitsFrom(q, pre, rest, true, s) {
        FitsHereOrBelow(q, pre, rest, s);
      }
    }
  }

  lemma HereIsFirstKept(q: Query, pre: string)
    requires IsKept(q, pre)
    ensures IsFirstKept(q, pre, "", false, pre)
  {
    assert pre[|pre|..] == "";
    NothingPrecedes(pre);
  }

  // ---------------------------------------------------------------------------
  // Answers.

  lemma PartHere(pre: string, s: string, t: string)
    requires pre <= s && pre <= t && s != t
    requires |s| > |pre| && |t| > |pre| ==> Order(s[|pre|]) != Order(t[|pre|])
    ensures Precedes(s, t) || Precedes(t, s)
  {
    assert s[..|pre|] == pre == t[..|pre|];
    if |s| == |pre| || (|t| > |pre| && Order(s[|pre|]) < Order(t[|pre|])) {
      assert |s| == |pre| ==> s == pre;
      assert PartsAt(s, t, |pre|);
    } else {
      assert PartsAt(t, s, |pre|);
    }
  }

  /** Two shapes that fit the same path come in an order. */
  lemma {:induction false} FittingAreOrdered(q: Query, pre: string, rest: string, s: string, t: string)
    requires Proper(q) && FitsFrom(q, pre, rest, false, s) && FitsFrom(q, pre, rest, false, t) && s != t
    ensures Precedes(s, t) || Precedes(t, s)
    decreases |s| - |pre|
  {
    FitsHereOrBelow(q, pre, rest, s);
    FitsHereOrBelow(q, pre, rest, t);
    if s == pre || t == pre {
      PartHere(pre, s, t);
    } else {
      GoesOn(q, pre, rest, s);
      GoesOn(q, pre, rest, t);
      var c := s[|pre|];
      if Order(c) != Order(t[|pre|]) {
        PartHere(pre, s, t);
      } else if c != ANY_LABEL {
        FittingAreOrdered(q, pre + [c], if c == PARAM_LABEL then rest[TakeLength(q.skeleton, pre, rest)..] else rest[1..], s, t);
      }
    }
  }

  /** Of the registered shapes that fit the path, the first at which a search can end. */
  ghost predicate DecidesFirst(q: Query, path: string, t: string) {
    EndsFirst(q, "", path, false, t)
  }

  /** Of the registered shapes that fit the path, the first that has a handler for some method, or is an any shape. */
  ghost predicate IsBest(q: Query, path: string, b: string) {
    IsFirstKept(q, "", path, false, b)
  }

  lemma FirstIsUnique(q: Query, path: string, s: string, t: string)
    requires Proper(q) && DecidesFirst(q, path, s) && DecidesFirst(q, path, t)
    ensures s == t
  {
    if s != t {
      FittingAreOrdered(q, "", path, s, t);
    }
  }

  lemma BestIsUnique(q: Query, path: string, s: string, t: string)
    requires Proper(q) && IsBest(q, path, s) && IsBest(q, path, t)
    ensures s == t
  {
    if s != t {
      FittingAreOrdered(q, "", path, s, t);
    }
  }

  /** A request is matched if and only if the first fitting shape answers it, and then by that answer. */
  lemma FirstShapeAnswers(q: Query, path: string, values: seq<string>, t: string)
    requires Proper(q) && DecidesFirst(q, path, t)
    ensures var o := Lookup(q, path, values);
            && (o.Hit? <==> AnswerAt(q, t).Some?)
            && (o.Hit? ==> o.shape == t && Some(o.route) == AnswerAt(q, t))
  {
    var o := Lookup(q, path, values);
    FirstOfSearch(q, "", path, State(values, None));
    match o
    case Hit(shape, _, _) => FirstIsUnique(q, path, shape, t);
    case Stop(_) =>
      var s :| EndsFirst(q, "", path, false, s) && AnswerAt(q, s).None?;
      FirstIsUnique(q, path, s, t);
    case Miss(_) =>
  }

  /** Where no fitting shape ends the search, nothing is matched; the best match is the first that there is. */
  lemma BestShapeIsKept(q: Query, path: string, values: seq<string>)
    requires Proper(q)
    ensures var o := Lookup(q, path, values);
            && ((forall t :: !DecidesFirst(q, path, t)) ==> !o.Hit?)
            && (!o.Hit? && o.st.best.Some? ==> IsBest(q, path, o.st.best.value))
            && (!o.Hit? && o.st.best.None? ==> forall b :: !IsBest(q, path, b))
  {
    FirstOfSearch(q, "", path, State(values, None));
    BestOfSearch(q, "", path, State(values, None));
    var o := Lookup(q, path, values);
    if o.Hit? {
      assert DecidesFirst(q, path, o.shape);
    }
  }
}
