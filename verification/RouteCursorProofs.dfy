/** Every step of the search agrees with the reference search and gets closer to the end. */
module RouteCursorProofs {
  import opened Wrappers
  import opened RoutePaths
  import opened RouteTable
  import opened RadixTree
  import opened RouteCursor

  lemma NotAfterSelf(b: string)
    ensures !After(b, b, 0)
  {
  }

  lemma ChildIsAfter(b: string, p: string, r: nat)
    requires p != "" && r <= Rank(p[0])
    ensures After(b + p, b, r)
  {
    assert (b + p)[..|b|] == b[..|b|];
    assert AfterAt(b + p, b, r, |b|);
  }

  /** Entering a child leaves less to come. */
  lemma EnterShrinks(g: Graph, n: Node, b: string, p: string, r: nat)
    requires n in g && g[n].spell == b + p && p != "" && r <= Rank(p[0])
    requires |p| > 1 ==> IsPlain(p)
    ensures n in Pending(g, b, r) && n !in Pending(g, b + p, 0)
    ensures Pending(g, b + p, 0) <= Pending(g, b, r)
  {
    ChildIsAfter(b, p, r);
    NotAfterSelf(b + p);
    forall m | m in Pending(g, b + p, 0) ensures m in Pending(g, b, r) {
      var x := g[m].spell;
      var j :| 0 <= j <= |b + p| && AfterAt(x, b + p, 0, j);
      if j < |b| {
        assert (b + p)[..j] == b[..j] && (b + p)[j] == b[j];
        assert AfterAt(x, b, r, j);
      } else {
        assert x[..|b|] == x[..j][..|b|] == (b + p)[..j][..|b|] == b;
        assert j > |b| ==> x[|b|] == x[..j][|b|] == p[0];
        assert AfterAt(x, b, r, |b|);
      }
    }
  }

  /** Going on to the next kind of child, or back up to the next kind of sibling, adds nothing. */
  lemma LaterShrinks(g: Graph, b: string, r: nat, r': nat)
    requires r <= r'
    ensures Pending(g, b, r') <= Pending(g, b, r)
  {
    forall m | m in Pending(g, b, r') ensures m in Pending(g, b, r) {
      var j :| 0 <= j <= |b| && AfterAt(g[m].spell, b, r', j);
      assert AfterAt(g[m].spell, b, r, j);
    }
  }

  lemma UpShrinks(g: Graph, b: string, p: string, r: nat, r': nat)
    requires p != "" && r' == Rank(p[0]) + 1
    ensures Pending(g, b, r') <= Pending(g, b + p, r)
  {
    forall m | m in Pending(g, b, r') ensures m in Pending(g, b + p, r) {
      var x := g[m].spell;
      var j :| 0 <= j <= |b| && AfterAt(x, b, r', j);
      assert (b + p)[..j] == b[..j];
      assert j < |b| ==> (b + p)[j] == b[j];
      assert j == |b| ==> (b + p)[j] == p[0];
      assert AfterAt(x, b + p, r, j);
    }
  }

  // ---------------------------------------------------------------------------
  // The any child.

  lemma AnyFacts(x: Context, n: Node, child: Node)
    requires ContextOk(x) && n in x.g && child == x.g[n].anyChild
    ensures child in x.g && x.g[child].kind == Any && x.g[child].parent == n && n != x.g[child].anyChild
    ensures x.g[child].spell == x.g[n].spell + [ANY_LABEL] && IsBound(x.g[child])
    ensures x.g[child].paramsCount == CountMarks(x.g[n].spell) + 1 <= x.width
    ensures HasAny(x.q, x.g[n].spell) && x.q.At(x.g[child].spell).methods == x.g[child].methods
  {
    assert NodeOk(x.g, x.root, n);
    AnyShowsLive(x.g, x.root, x.q, n);
    assert NodeOk(x.g, x.root, child) && Agrees(x.g, x.q.entries, child);
    CountMarksSnoc(x.g[n].spell, ANY_LABEL);
  }

  /** An any child ends the search, with the reference outcome. */
  lemma EndAtAnyOk(x: Context, p: Place, child: Node)
    requires ContextOk(x) && Ok(x, p) && p.next == TryAny && child == x.g[p.node].anyChild
    ensures child in x.g && Ok(x, EndAtAny(x, p, child)) && Moved(x, p, EndAtAny(x, p, child))
  {
    AnyFacts(x, p.node, child);
    EndAtAnyMoves(x, p, child);
    var t := AnyTaken(x, p, child);
    var k := p.paramIndex;
    assert p.values[k := p.search][k := ""] == p.values[k := ""];
    assert p.searchIndex + |p.search| == |x.path|;
    assert x.total == FromAny(x.q, x.g[p.node].spell, p.search, StateOf(x, p));
    assert StateOf(x, t).values == p.values[k := p.search];
  }

  lemma EndAtAnyMoves(x: Context, p: Place, child: Node)
    requires ContextOk(x) && p.node in x.g && p.next == TryAny && child == x.g[p.node].anyChild
    ensures child in x.g && Moved(x, p, EndAtAny(x, p, child))
  {
    AnyFacts(x, p.node, child);
    EnterShrinks(x.g, child, x.g[p.node].spell, [ANY_LABEL], 2);
  }

  lemma MayTakeAny(x: Context, p: Place)
    requires ContextOk(x) && Ok(x, p) && p.next == TryAny && x.g[p.node].anyChild != null
    ensures CanTakeAny(x, p)
  {
    AnyFacts(x, p.node, x.g[p.node].anyChild);
  }

  lemma EnterNodeFits(x: Context, p: Place, p1: Place, lcp: nat)
    requires p.node in x.g
    requires lcp == if x.g[p.node].kind == Static then |x.g[p.node].prefix| else 0
    requires x.g[p.node].kind == Static ==> lcp == CommonPrefixLength(p.search, x.g[p.node].prefix)
    requires lcp <= |p.search| && p1 == p.(search := p.search[lcp..], searchIndex := p.searchIndex + lcp)
    ensures EnterNode(x, p) == AtNode(x, p1)
  {
  }

  lemma AboveSplits(x: Context, n: Node)
    requires ContextOk(x) && n in x.g && x.g[n].kind == Static
    ensures var c := x.g[n]; c.spell == Above(c) + c.prefix && c.prefix != "" && IsPlain(c.prefix)
    ensures StaticEdge(x.q, Above(x.g[n]), x.g[n].prefix)
    ensures n == x.root ==> Above(x.g[n]) == "" && x.g[n].parent == null
    ensures n != x.root ==> x.g[n].parent in x.g && x.g[x.g[n].parent].spell == Above(x.g[n])
    ensures n != x.root ==> x.g[x.g[n].parent].kind != Any
  {
    assert NodeOk(x.g, x.root, n);
    if n == x.root {
      EdgeOfRoot(x.g, x.root, x.q);
    } else {
      EdgeOfStatic(x.g, x.root, x.q, n);
      assert NodeOk(x.g, x.root, x.g[n].parent);
    }
  }

  /** Above the root nothing is left to try. */
  lemma RootMisses(x: Context, rest: string, st: State)
    requires ContextOk(x)
    ensures FromParam(x.q, "", rest, st) == Miss(st)
    ensures HasStatic(x.q, "", rest) ==> x.g[x.root].prefix != "" && rest[0] == x.g[x.root].prefix[0]
  {
    EdgeOfRoot(x.g, x.root, x.q);
    assert !IsMark(x.g[x.root].prefix[0]);
  }

  /** Giving back the last `t` bytes that were read. */
  lemma GiveBack(path: string, i: nat, a: string, t: string)
    requires i <= |path| && path[..i] == a + t
    ensures |t| <= i && path[..i - |t|] == a && path[i - |t|..] == t + path[i..]
  {
    assert path[..i][..|a|] == a && path[..i][|a|..] == t;
    assert path == path[..i] + path[i..];
  }

  lemma LeaveStaticReads(x: Context, p: Place)
    requires ContextOk(x) && Ok(x, p) && p.next == TryAny && x.g[p.node].kind == Static
    ensures HasRead(x, Leave(x, p), Above(x.g[p.node])) && Leave(x, p).search == x.g[p.node].prefix + p.search
    ensures StateOf(x, Leave(x, p)) == StateOf(x, p)
  {
    var c := x.g[p.node];
    AboveSplits(x, p.node);
    FillPlain(Above(c), c.prefix, p.values);
    GiveBack(x.path, p.searchIndex, Fill(Above(c), p.values), c.prefix);
  }

  lemma LeaveStaticTotal(x: Context, p: Place)
    requires ContextOk(x) && Ok(x, p) && p.next == TryAny
    requires x.g[p.node].anyChild == null && x.g[p.node].kind == Static
    ensures var b, rest, st := Above(x.g[p.node]), x.g[p.node].prefix + p.search, StateOf(x, p);
            x.total == Unwind(x.q, b, rest, FromParam(x.q, b, rest, st))
  {
    var c, st := x.g[p.node], StateOf(x, p);
    AboveSplits(x, p.node);
    AnyShowsLive(x.g, x.root, x.q, p.node);
    var rest := c.prefix + p.search;
    assert c.prefix[..|c.prefix|] == c.prefix && rest[..|c.prefix|] == c.prefix && rest[|c.prefix|..] == p.search;
    assert FromAny(x.q, c.spell, p.search, st) == Miss(st);
    EdgeReturn(x.q, Above(c), c.prefix, |c.prefix|, rest, st);
  }

  /** Leaving a static node gives back its prefix. */
  lemma LeaveStaticOk(x: Context, p: Place)
    requires ContextOk(x) && Ok(x, p) && p.next == TryAny
    requires x.g[p.node].anyChild == null && x.g[p.node].kind == Static
    ensures Ok(x, Leave(x, p)) && Moved(x, p, Leave(x, p))
  {
    LeaveStaticMoves(x, p);
    AboveSplits(x, p.node);
    LeaveStaticReads(x, p);
    LeaveStaticTotal(x, p);
    if p.node == x.root {
      RootMisses(x, Leave(x, p).search, StateOf(x, p));
    }
  }

  lemma LeaveStaticMoves(x: Context, p: Place)
    requires ContextOk(x) && p.node in x.g && p.next == TryAny && x.g[p.node].kind == Static
    ensures Moved(x, p, Leave(x, p))
  {
    var c := x.g[p.node];
    AboveSplits(x, p.node);
    UpShrinks(x.g, Above(c), c.prefix, 2, 1);
  }

  lemma LeaveParamReads(x: Context, p: Place, b: string, k: nat)
    requires ContextOk(x) && Ok(x, p) && p.next == TryAny && x.g[p.node].kind == Param
    requires x.g[p.node].spell == b + [PARAM_LABEL] && k == CountMarks(b)
    ensures k < |p.values|
    ensures HasRead(x, Leave(x, p), b) && Leave(x, p).search == p.values[k] + p.search
    ensures StateOf(x, Leave(x, p)) == StateOf(x, p).(values := p.values[k := ""])
  {
    CountMarksSnoc(b, PARAM_LABEL);
    FillMark(b, PARAM_LABEL, p.values);
    GiveBack(x.path, p.searchIndex, Fill(b, p.values), p.values[k]);
    FillFrame(b, p.values, p.values[k := ""]);
  }

  lemma LeaveParamTotal(x: Context, p: Place, b: string, k: nat)
    requires ContextOk(x) && Ok(x, p) && p.next == TryAny && x.g[p.node].kind == Param
    requires x.g[p.node].anyChild == null && x.g[p.node].spell == b + [PARAM_LABEL] && k == CountMarks(b) < |p.values|
    ensures var rest, st := p.values[k] + p.search, StateOf(x, p).(values := p.values[k := ""]);
            x.total == Unwind(x.q, b, rest, FromAny(x.q, b, rest, st))
  {
    AnyShowsLive(x.g, x.root, x.q, p.node);
    assert (b + [PARAM_LABEL])[..|b + [PARAM_LABEL]| - 1] == b;
  }

  /** Leaving a parameter node gives back the value it took. */
  lemma LeaveParamOk(x: Context, p: Place)
    requires ContextOk(x) && Ok(x, p) && p.next == TryAny
    requires x.g[p.node].anyChild == null && x.g[p.node].kind == Param
    ensures Ok(x, Leave(x, p)) && Moved(x, p, Leave(x, p))
  {
    var c := x.g[p.node];
    assert NodeOk(x.g, x.root, p.node);
    var b := x.g[c.parent].spell;
    assert NodeOk(x.g, x.root, c.parent);
    LeaveParamReads(x, p, b, CountMarks(b));
    LeaveParamTotal(x, p, b, CountMarks(b));
    UpShrinks(x.g, b, [PARAM_LABEL], 2, 2);
  }

  lemma TryAnyOk(x: Context, p: Place)
    requires ContextOk(x) && Ok(x, p) && p.next == TryAny
    ensures Ok(x, Step(x, p)) && Moved(x, p, Step(x, p))
  {
    assert NodeOk(x.g, x.root, p.node);
    if x.g[p.node].anyChild != null {
      EndAtAnyOk(x, p, x.g[p.node].anyChild);
    } else if x.g[p.node].kind == Static {
      LeaveStaticOk(x, p);
    } else {
      LeaveParamOk(x, p);
    }
  }

  lemma TakeParamOk(x: Context, p: Place, d: Node)
    requires ContextOk(x) && Ok(x, p) && p.next == TryParam && p.search != "" && d == x.g[p.node].paramChild
    ensures d in x.g && Ok(x, TakeParam(x, p, d)) && Moved(x, p, TakeParam(x, p, d))
  {
    ParamFacts(x, p.node, d);
    TakeParamTotal(x, p, d);
    TakenIsRead(x, p, d);
    TakeParamMoves(x, p, d);
  }

  lemma TakenIsRead(x: Context, p: Place, d: Node)
    requires ContextOk(x) && Ok(x, p) && p.next == TryParam && p.search != "" && d == x.g[p.node].paramChild && d in x.g
    ensures HasRead(x, TakeParam(x, p, d), x.g[d].spell)
  {
    ParamFacts(x, p.node, d);
    TakeParamReads(x, p, x.g[p.node].spell, TakeLength(x.q.skeleton, x.g[p.node].spell, p.search));
  }

  lemma TakeParamMoves(x: Context, p: Place, d: Node)
    requires ContextOk(x) && p.node in x.g && p.next == TryParam && d == x.g[p.node].paramChild
    ensures d in x.g && Moved(x, p, TakeParam(x, p, d))
  {
    ParamFacts(x, p.node, d);
    EnterShrinks(x.g, d, x.g[p.node].spell, [PARAM_LABEL], 1);
  }

  lemma ParamFacts(x: Context, n: Node, d: Node)
    requires ContextOk(x) && n in x.g && d == x.g[n].paramChild
    ensures d in x.g && x.g[d].kind == Param && x.g[d].spell == x.g[n].spell + [PARAM_LABEL]
    ensures CountMarks(x.g[d].spell) == CountMarks(x.g[n].spell) + 1 <= x.width
    ensures Live(x.q.skeleton, x.g[n].spell + [PARAM_LABEL])
    ensures IsEnd(x.q.skeleton, x.g[n].spell + [PARAM_LABEL]) <==> x.g[d].isLeaf
  {
    assert NodeOk(x.g, x.root, n);
    ParamShowsLive(x.g, x.root, x.q, n);
    assert NodeOk(x.g, x.root, d);
    CountMarksSnoc(x.g[n].spell, PARAM_LABEL);
  }

  lemma TakeParamTotal(x: Context, p: Place, d: Node)
    requires ContextOk(x) && Ok(x, p) && p.next == TryParam && p.search != "" && d == x.g[p.node].paramChild && d in x.g
    ensures var p' := TakeParam(x, p, d);
            x.total == Unwind(x.q, x.g[d].spell, p'.search, Search(x.q, x.g[d].spell, p'.search, StateOf(x, p')))
  {
    ParamFacts(x, p.node, d);
    var b, p' := x.g[p.node].spell, TakeParam(x, p, d);
    var n := TakeLength(x.q.skeleton, b, p.search);
    assert StateOf(x, p') == StateOf(x, p).(values := p.values[p.paramIndex := p.search[..n]]);
    ParamStep(x.q, b, p.search, StateOf(x, p), n, StateOf(x, p'));
  }

  lemma TakeParamReads(x: Context, p: Place, b: string, n: nat)
    requires HasRead(x, p, b) && n <= |p.search| && p.paramIndex < |p.values|
    ensures HasRead(x, p.(values := p.values[p.paramIndex := p.search[..n]], paramIndex := p.paramIndex + 1,
                          search := p.search[n..], searchIndex := p.searchIndex + n), b + [PARAM_LABEL])
  {
    var values := p.values[p.paramIndex := p.search[..n]];
    FillMark(b, PARAM_LABEL, values);
    FillFrame(b, p.values, values);
    assert x.path[..p.searchIndex] + p.search[..n] == x.path[..p.searchIndex + n];
    assert p.search[n..] == x.path[p.searchIndex + n..];
  }

  lemma TryParamOk(x: Context, p: Place)
    requires ContextOk(x) && Ok(x, p) && p.next == TryParam
    ensures Ok(x, Step(x, p)) && Moved(x, p, Step(x, p))
  {
    var c := x.g[p.node];
    ParamShowsLive(x.g, x.root, x.q, p.node);
    if p.search != "" && c.paramChild != null {
      TakeParamOk(x, p, c.paramChild);
    } else {
      LaterShrinks(x.g, c.spell, 1, 2);
    }
  }

  // ---------------------------------------------------------------------------
  // Arriving at a node.

  lemma StaticChildFacts(x: Context, n: Node, l: char, d: Node)
    requires ContextOk(x) && n in x.g && l in x.g[n].scLabels
    requires |x.g[n].scLabels| == |x.g[n].staticChildren| && d == x.g[n].staticChildren[IndexOf(x.g[n].scLabels, l)]
    ensures d in x.g && x.g[d].kind == Static && x.g[d].prefix != "" && x.g[d].prefix[0] == l && IsPlain(x.g[d].prefix)
    ensures x.g[d].spell == x.g[n].spell + x.g[d].prefix && Above(x.g[d]) == x.g[n].spell
  {
    assert NodeOk(x.g, x.root, n);
    assert ChildOk(x.g, n, d, Static);
    assert NodeOk(x.g, x.root, d);
    AboveSplits(x, d);
  }

  lemma OnwardOk(x: Context, p: Place)
    requires ContextOk(x) && Arrived(x, p) && p.next == Enter
    requires var b, st := x.g[p.node].spell, StateOf(x, p);
             x.total == Unwind(x.q, b, p.search, Below(x.q, b, p.search, st))
    ensures Ok(x, Onward(x, p)) && Moved(x, p, Onward(x, p))
  {
    var c := x.g[p.node];
    assert NodeOk(x.g, x.root, p.node);
    OnwardMoves(x, p);
    StaticsShowLive(x.g, x.root, x.q, p.node, p.search);
    if p.search != "" && p.search[0] in c.scLabels {
      StaticChildFacts(x, p.node, p.search[0], c.staticChildren[IndexOf(c.scLabels, p.search[0])]);
    }
  }

  lemma OnwardMoves(x: Context, p: Place)
    requires ContextOk(x) && p.node in x.g && p.next == Enter
    ensures Moved(x, p, Onward(x, p))
  {
    var c := x.g[p.node];
    assert NodeOk(x.g, x.root, p.node);
    if p.search != "" && p.search[0] in c.scLabels {
      var d := c.staticChildren[IndexOf(c.scLabels, p.search[0])];
      StaticChildFacts(x, p.node, p.search[0], d);
      EnterShrinks(x.g, d, c.spell, x.g[d].prefix, 0);
    } else {
      LaterShrinks(x.g, c.spell, 0, 1);
    }
  }

  lemma AtNodeOk(x: Context, p: Place)
    requires ContextOk(x) && Arrived(x, p) && p.next == Enter
    requires var b, st := x.g[p.node].spell, StateOf(x, p);
             x.total == Unwind(x.q, b, p.search, Search(x.q, b, p.search, st))
    ensures Ok(x, AtNode(x, p)) && Moved(x, p, AtNode(x, p))
  {
    var c := x.g[p.node];
    assert NodeOk(x.g, x.root, p.node) && Agrees(x.g, x.q.entries, p.node);
    assert x.q.At(c.spell).methods == c.methods;
    var p' := AtNode(x, p);
    if p'.next != Finished {
      OnwardOk(x, if p.search == "" && c.isHandler && p.best == null then p.(best := p.node) else p);
    } else {
      LaterShrinks(x.g, c.spell, 0, 0);
    }
  }

  lemma EnterStaticOk(x: Context, p: Place)
    requires ContextOk(x) && Ok(x, p) && p.next == Enter && x.g[p.node].kind == Static
    ensures Ok(x, EnterNode(x, p)) && Moved(x, p, EnterNode(x, p))
  {
    if CommonPrefixLength(p.search, x.g[p.node].prefix) != |x.g[p.node].prefix| {
      EnterFailsOk(x, p);
      EnterFailsMoves(x, p);
    } else {
      EnterFitsOk(x, p);
    }
  }

  lemma EnterFailsMoves(x: Context, p: Place)
    requires ContextOk(x) && p.node in x.g && p.next == Enter && x.g[p.node].kind == Static
    requires CommonPrefixLength(p.search, x.g[p.node].prefix) != |x.g[p.node].prefix|
    ensures Moved(x, p, EnterNode(x, p))
  {
    AboveSplits(x, p.node);
    UpShrinks(x.g, Above(x.g[p.node]), x.g[p.node].prefix, 0, 1);
  }

  lemma EnterFailsOk(x: Context, p: Place)
    requires ContextOk(x) && Ok(x, p) && p.next == Enter && x.g[p.node].kind == Static
    requires CommonPrefixLength(p.search, x.g[p.node].prefix) != |x.g[p.node].prefix|
    ensures Ok(x, EnterNode(x, p))
  {
    AboveSplits(x, p.node);
    EnterFails(x, p);
    var p' := EnterNode(x, p);
    assert StateOf(x, p') == StateOf(x, p);
  }

  lemma EnterFitsOk(x: Context, p: Place)
    requires ContextOk(x) && Ok(x, p) && p.next == Enter && x.g[p.node].kind == Static
    requires CommonPrefixLength(p.search, x.g[p.node].prefix) == |x.g[p.node].prefix|
    ensures Ok(x, EnterNode(x, p)) && Moved(x, p, EnterNode(x, p))
  {
    var k := |x.g[p.node].prefix|;
    assert x.g[p.node].prefix[..k] == x.g[p.node].prefix;
    EnterFits(x, p);
    var p1 := p.(search := p.search[k..], searchIndex := p.searchIndex + k);
    AtNodeOk(x, p1);
    EnterNodeFits(x, p, p1, k);
    MovedFrom(x, p, p1, AtNode(x, p1));
  }

  lemma MovedFrom(x: Context, p: Place, p1: Place, p': Place)
    requires p1.node == p.node && p1.next == p.next && Moved(x, p1, p')
    ensures Moved(x, p, p')
  {
  }

  lemma EnterFails(x: Context, p: Place)
    requires ContextOk(x) && Ok(x, p) && p.next == Enter && x.g[p.node].kind == Static
    requires CommonPrefixLength(p.search, x.g[p.node].prefix) != |x.g[p.node].prefix|
    ensures var b, st := Above(x.g[p.node]), StateOf(x, p);
            x.total == Unwind(x.q, b, p.search, FromParam(x.q, b, p.search, st))
    ensures p.node == x.root ==> x.total == Miss(StateOf(x, p))
  {
    var c, st := x.g[p.node], StateOf(x, p);
    AboveSplits(x, p.node);
    if p.node == x.root {
      RootMisses(x, p.search, st);
    }
    EdgeFails(x.q, Above(c), c.prefix, CommonPrefixLength(p.search, c.prefix), p.search, st);
  }

  lemma EnterFits(x: Context, p: Place)
    requires ContextOk(x) && Ok(x, p) && p.next == Enter && x.g[p.node].kind == Static
    requires |x.g[p.node].prefix| <= |p.search| && p.search[..|x.g[p.node].prefix|] == x.g[p.node].prefix
    ensures var k, b := |x.g[p.node].prefix|, x.g[p.node].spell;
            var p1 := p.(search := p.search[k..], searchIndex := p.searchIndex + k);
            Arrived(x, p1) && x.total == Unwind(x.q, b, p1.search, Search(x.q, b, p1.search, StateOf(x, p1)))
  {
    EnterFitsTotal(x, p);
    EnterFitsArrives(x, p);
  }

  lemma EnterFitsArrives(x: Context, p: Place)
    requires ContextOk(x) && p.node in x.g && x.g[p.node].kind == Static && HasRead(x, p, Above(x.g[p.node]))
    requires |p.values| == x.width && p.matched.None? && (p.best != null ==> p.best in x.g && IsBound(x.g[p.best]))
    requires |x.g[p.node].prefix| <= |p.search| && p.search[..|x.g[p.node].prefix|] == x.g[p.node].prefix
    ensures var k := |x.g[p.node].prefix|;
            Arrived(x, p.(search := p.search[k..], searchIndex := p.searchIndex + k))
  {
    AboveSplits(x, p.node);
    PrefixIsRead(x, p, Above(x.g[p.node]), x.g[p.node].prefix);
  }

  lemma PrefixIsRead(x: Context, p: Place, b: string, t: string)
    requires HasRead(x, p, b) && IsPlain(t) && |t| <= |p.search| && p.search[..|t|] == t
    ensures HasRead(x, p.(search := p.search[|t|..], searchIndex := p.searchIndex + |t|), b + t)
  {
    EnterReads(x.path, p.searchIndex, b, t, p.values);
  }

  lemma EnterFitsTotal(x: Context, p: Place)
    requires ContextOk(x) && Ok(x, p) && p.next == Enter && x.g[p.node].kind == Static
    requires |x.g[p.node].prefix| <= |p.search| && p.search[..|x.g[p.node].prefix|] == x.g[p.node].prefix
    ensures var k, b := |x.g[p.node].prefix|, x.g[p.node].spell;
            var p1 := p.(search := p.search[k..], searchIndex := p.searchIndex + k);
            x.total == Unwind(x.q, b, p1.search, Search(x.q, b, p1.search, StateOf(x, p1)))
  {
    var c := x.g[p.node];
    var b, k := Above(c), |c.prefix|;
    AboveSplits(x, p.node);
    assert c.prefix[..k] == c.prefix;
    EdgeRun(x.q, b, c.prefix, k, p.search, StateOf(x, p));
    assert StateOf(x, p.(search := p.search[k..], searchIndex := p.searchIndex + k)) == StateOf(x, p);
  }

  lemma EnterReads(path: string, i: nat, b: string, t: string, values: seq<string>)
    requires i <= |path| && Fill(b, values) == path[..i] && IsPlain(t) && |t| <= |path| - i && path[i..][..|t|] == t
    ensures Fill(b + t, values) == path[..i + |t|] && CountMarks(b + t) == CountMarks(b)
    ensures path[i..][|t|..] == path[i + |t|..]
  {
    FillPlain(b, t, values);
    ReadOn(path, i, |t|);
  }

  lemma ReadOn(path: string, i: nat, k: nat)
    requires i + k <= |path|
    ensures path[..i] + path[i..][..k] == path[..i + k] && path[i..][k..] == path[i + k..]
  {
  }

  lemma EnterOkStep(x: Context, p: Place)
    requires ContextOk(x) && Ok(x, p) && p.next == Enter
    ensures Ok(x, EnterNode(x, p)) && Moved(x, p, EnterNode(x, p))
  {
    if x.g[p.node].kind == Static {
      EnterStaticOk(x, p);
    } else {
      assert p.search[0..] == p.search;
      AtNodeOk(x, p);
    }
  }

  /** Every step of the loop agrees with the reference search and gets closer to the end. */
  lemma StepOk(x: Context, p: Place)
    requires ContextOk(x) && Ok(x, p) && p.next != Finished
    ensures Ok(x, Step(x, p)) && Moved(x, p, Step(x, p))
  {
    match p.next
    case Enter => EnterOkStep(x, p);
    case TryParam => TryParamOk(x, p);
    case TryAny => TryAnyOk(x, p);
  }

  lemma StartOk(x: Context, p: Place)
    requires ContextOk(x) && p == Place(x.root, null, None, x.path, 0, 0, Enter, p.values) && |p.values| == x.width
    requires x.total == Lookup(x.q, x.path, p.values)
    ensures Ok(x, p)
  {
    EdgeOfRoot(x.g, x.root, x.q);
    AboveSplits(x, x.root);
  }

  lemma CanLeave(x: Context, p: Place)
    requires ContextOk(x) && Ok(x, p) && p.next == TryAny
    ensures CanRestore(x, p)
  {
    var c := x.g[p.node];
    if c.kind == Static {
      AboveSplits(x, p.node);
      FillPlain(Above(c), c.prefix, p.values);
      GiveBack(x.path, p.searchIndex, Fill(Above(c), p.values), c.prefix);
    } else {
      assert NodeOk(x.g, x.root, p.node);
      var b := x.g[c.parent].spell;
      CountMarksSnoc(b, PARAM_LABEL);
      FillMark(b, PARAM_LABEL, p.values);
      GiveBack(x.path, p.searchIndex, Fill(b, p.values), p.values[CountMarks(b)]);
    }
  }

  // ---------------------------------------------------------------------------
  // The whole loop, on a tree with or without routes.

  lemma ContextIsUsable(x: Context)
    requires ContextOk(x) || BlankContext(x)
    ensures Usable(x.g)
  {
    forall n | n in x.g ensures UsableNode(x.g, n) {
      if ContextOk(x) {
        assert NodeOk(x.g, x.root, n);
        forall i | 0 <= i < |x.g[n].staticChildren| ensures x.g[n].staticChildren[i] in x.g {
          assert ChildOk(x.g, n, x.g[n].staticChildren[i], Static);
        }
      }
    }
  }

  lemma SearchStarts(x: Context, p: Place)
    requires ContextOk(x) || BlankContext(x)
    requires p == Place(x.root, null, None, x.path, 0, 0, Enter, p.values) && |p.values| == x.width
    requires x.total == Lookup(x.q, x.path, p.values)
    ensures Searching(x, p)
  {
    if ContextOk(x) {
      StartOk(x, p);
    } else {
      BlankMisses(x.q, x.path, State(p.values, None));
    }
  }

  lemma BlankMisses(q: Query, rest: string, st: State)
    requires q.skeleton == {} && q.entries == map[]
    ensures Search(q, "", rest, st) == Miss(st)
  {
    assert !HasStatic(q, "", rest) && !HasParam(q, "", rest) && !HasAny(q, "");
    assert !q.At("").methods.IsHandler() && q.At("").methods.NotFound().None?;
    assert FromAny(q, "", rest, st) == Miss(st);
    assert FromParam(q, "", rest, st) == Miss(st);
  }

  lemma SearchCanStep(x: Context, p: Place)
    requires Searching(x, p) && p.next != Finished
    ensures CanStep(x, p)
  {
    if ContextOk(x) && Ok(x, p) {
      if p.next == TryParam && x.g[p.node].paramChild != null {
        ParamFacts(x, p.node, x.g[p.node].paramChild);
      } else if p.next == TryAny {
        if x.g[p.node].anyChild == null {
          CanLeave(x, p);
        } else {
          MayTakeAny(x, p);
        }
      }
    }
  }

  lemma SearchSteps(x: Context, p: Place)
    requires Searching(x, p) && p.next != Finished && p.node in x.g
    ensures Searching(x, Step(x, p)) && Moved(x, p, Step(x, p))
  {
    if ContextOk(x) && Ok(x, p) {
      StepOk(x, p);
    } else {
      BlankSteps(x, p);
    }
  }

  lemma BlankSteps(x: Context, p: Place)
    requires BlankContext(x) && BlankOk(x, p) && p.next != Finished && p.node in x.g
    ensures BlankOk(x, Step(x, p)) && Moved(x, p, Step(x, p))
  {
    assert x.path[0..] == x.path;
    var c := x.g[x.root];
    assert c.prefix == "" && c.spell == "" && c.scLabels == [] && c.paramChild == null && c.anyChild == null;
    assert !c.methods.IsHandler() && c.methods.NotFound().None?;
    forall r: nat ensures Pending(x.g, "", r) == {} {
    }
    match p.next
    case Enter => assert Step(x, p) == p.(next := TryParam);
    case TryParam => assert Step(x, p) == p.(next := TryAny);
    case TryAny => assert Step(x, p) == p.(next := Finished, node := null);
  }

  lemma MovedIsCloser(x: Context, p: Place, p': Place)
    requires Moved(x, p, p')
    ensures IsCloser(x, p, p')
  {
  }

  /** The nodes that the search enters from here on, in their order. */
  ghost function Entered(x: Context, p: Place): seq<Node>
    decreases Ahead(x, p), Depth(x, p), Turn(p)
  {
    if !Searching(x, p) || p.next == Finished || p.node !in x.g then []
    else
      SearchSteps(x, p);
      EnteredBy(x, p) + Entered(x, Step(x, p))
  }

  /** An any child was ahead before the step that takes it, after which nothing is. */
  lemma AnyIsBehind(x: Context, p: Place, d: Node)
    requires Searching(x, p) && p.next == TryAny && p.node in x.g && d == x.g[p.node].anyChild && d in x.g
    ensures Step(x, p).next == Finished
    ensures d in Ahead(x, p) && Ahead(x, Step(x, p)) == {}
  {
    if ContextOk(x) {
      AnyFacts(x, p.node, d);
      EnterShrinks(x.g, d, x.g[p.node].spell, [ANY_LABEL], 2);
    }
  }

  /** What a step enters was ahead of it and is behind it afterwards. */
  lemma EnteredIsBehind(x: Context, p: Place)
    requires Searching(x, p) && p.next != Finished && p.node in x.g
    ensures |EnteredBy(x, p)| <= 1
    ensures forall n :: n in EnteredBy(x, p) ==> n in Ahead(x, p) && n !in Ahead(x, Step(x, p))
  {
    SearchSteps(x, p);
    if p.next == TryAny && x.g[p.node].anyChild in x.g {
      AnyIsBehind(x, p, x.g[p.node].anyChild);
    }
  }

  lemma {:induction false} EnteredOnce(x: Context, p: Place)
    requires Searching(x, p)
    ensures NoDuplicates(Entered(x, p)) && forall n :: n in Entered(x, p) ==> n in Ahead(x, p)
    decreases Ahead(x, p), Depth(x, p), Turn(p)
  {
    if p.next != Finished && p.node in x.g {
      SearchSteps(x, p);
      EnteredIsBehind(x, p);
      EnteredOnce(x, Step(x, p));
      JoinDistinct(EnteredBy(x, p), Entered(x, Step(x, p)));
    }
  }

  lemma JoinDistinct(first: seq<Node>, rest: seq<Node>)
    requires |first| <= 1 && NoDuplicates(rest) && forall n :: n in first ==> n !in rest
    ensures NoDuplicates(first + rest)
  {
    var all := first + rest;
    forall i, j | 0 <= i < j < |all| ensures all[i] != all[j] {
      if i < |first| {
        assert all[i] in first && all[j] in rest;
      }
    }
  }

  /** From its start the search enters no node twice, the root included. */
  lemma NoNodeTwice(x: Context, p: Place)
    requires Searching(x, p) && p.next == Enter && p.node != null
    ensures NoDuplicates([p.node] + Entered(x, p))
  {
    EnteredOnce(x, p);
    if p.node in x.g {
      NotAfterSelf(x.g[p.node].spell);
    }
    JoinDistinct([p.node], Entered(x, p));
  }

  lemma EnteredStep(x: Context, p: Place, trail: seq<Node>)
    requires Searching(x, p) && p.next != Finished && p.node in x.g
    ensures trail + Entered(x, p) == trail + EnteredBy(x, p) + Entered(x, Step(x, p))
  {
  }

  lemma SearchEnds(x: Context, p: Place)
    requires Searching(x, p) && p.next == Finished
    ensures FinishedOk(x, p) && |p.values| == x.width
    ensures p.best != null ==> ContextOk(x) && p.best in x.g && IsBound(x.g[p.best])
    ensures x.total.Hit? ==> ContextOk(x)
  {
  }
}
