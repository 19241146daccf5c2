/** The search of `Route` over the linked nodes and the request's slice of path values. */
module RouteSearch {
  import opened Wrappers
  import opened RoutePaths
  import opened RouteTable
  import opened RadixTree
  import opened RouteCursor
  import opened RouteCursorProofs

  ghost function ValuesOf(slots: seq<PathValue>): (r: seq<string>)
    ensures |r| == |slots| && forall i :: 0 <= i < |slots| ==> r[i] == slots[i].value
  {
    seq(|slots|, i requires 0 <= i < |slots| => slots[i].value)
  }

  ghost function NamesOf(slots: seq<PathValue>): (r: seq<string>)
    ensures |r| == |slots| && forall i :: 0 <= i < |slots| ==> r[i] == slots[i].name
  {
    seq(|slots|, i requires 0 <= i < |slots| => slots[i].name)
  }

  method CommonPrefix(a: string, b: string) returns (n: nat)
    ensures n == CommonPrefixLength(a, b)
  {
    n := 0;
    var max := if |a| < |b| then |a| else |b|;
    while n < max && a[n] == b[n]
      invariant n <= max && CommonPrefixLength(a, b) == n + CommonPrefixLength(a[n..], b[n..])
    {
      assert a[n..][1..] == a[n + 1..] && b[n..][1..] == b[n + 1..];
      n := n + 1;
    }
  }

  method SegmentEnd(s: string) returns (n: nat)
    ensures n == SegmentLength(s)
  {
    n := 0;
    while n < |s| && s[n] != '/'
      invariant n <= |s| && SegmentLength(s) == n + SegmentLength(s[n..])
    {
      assert s[n..][1..] == s[n + 1..];
      n := n + 1;
    }
  }

  class Cursor {
    const path: string
    const verb: string
    const autoHead: bool
    const pathValues: array<PathValue>
    var currentNode: Node?
    var previousBestMatchNode: Node?
    var matchedRouteMethod: Option<RouteMethod>
    /** The part of the path that is still to be read, and where it starts. */
    var search: string
    var searchIndex: nat
    var paramIndex: nat
    var next: Label

    ghost const nodes: set<Node>
    ghost const x: Context

    ghost predicate Valid()
      reads nodes
    {
      && Usable(x.g)
      && x.g == Snapshot(nodes)
      && x.path == path && x.q.verb == verb && x.q.autoHead == autoHead
      && x.width == pathValues.Length
    }

    ghost function Now(): Place
      reads this, pathValues
    {
      Place(currentNode, previousBestMatchNode, matchedRouteMethod, search, searchIndex, paramIndex, next,
            ValuesOf(pathValues[..]))
    }

    constructor (root: Node, path: string, verb: string, autoHead: bool, pathValues: array<PathValue>,
                 ghost nodes: set<Node>, ghost x: Context)
      requires (ContextOk(x) || BlankContext(x)) && x.g == Snapshot(nodes) && x.root == root
      requires x.path == path && x.q.verb == verb && x.q.autoHead == autoHead && x.width == pathValues.Length
      requires x.total == Lookup(x.q, path, ValuesOf(pathValues[..]))
      ensures Valid() && Searching(x, Now()) && next == Enter && currentNode == root
      ensures Now() == Place(root, null, None, path, 0, 0, Enter, ValuesOf(pathValues[..]))
      ensures this.pathValues == pathValues && this.nodes == nodes && this.x == x
      ensures this.path == path && this.verb == verb && this.autoHead == autoHead
    {
      this.path, this.verb, this.autoHead, this.pathValues := path, verb, autoHead, pathValues;
      this.nodes, this.x := nodes, x;
      currentNode, previousBestMatchNode, matchedRouteMethod := root, null, None;
      search, searchIndex, paramIndex, next := path, 0, 0, Enter;
      new;
      ContextIsUsable(x);
      SearchStarts(x, Now());
    }

    /** Sets the value of one slot and leaves its name. */
    method SetValue(k: nat, v: string)
      requires k < pathValues.Length
      modifies pathValues
      ensures ValuesOf(pathValues[..]) == old(ValuesOf(pathValues[..]))[k := v]
      ensures NamesOf(pathValues[..]) == old(NamesOf(pathValues[..]))
    {
      pathValues[k] := PathValue(pathValues[k].name, v);
      assert ValuesOf(pathValues[..]) == old(ValuesOf(pathValues[..]))[k := v];
      assert NamesOf(pathValues[..]) == old(NamesOf(pathValues[..]));
    }

    /** Back to the parent; with `restore`, gives back what the current node read. */
    method Backtrack(restore: bool)
      requires Valid() && currentNode in nodes && (restore ==> CanRestore(x, Now()))
      modifies this, pathValues
      ensures Now() == Back(x, old(Now()), restore)
      ensures NamesOf(pathValues[..]) == old(NamesOf(pathValues[..]))
    {
      var previous := currentNode;
      assert x.g[previous] == previous.View();
      currentNode := previous.parent;
      if !restore {
        return;
      }
      if previous.kind == Static {
        searchIndex := searchIndex - |previous.prefix|;
      } else {
        paramIndex := paramIndex - 1;
        searchIndex := searchIndex - |pathValues[paramIndex].value|;
        SetValue(paramIndex, "");
      }
      search := path[searchIndex..];
    }

    method StepEnter()
      requires Valid() && currentNode in nodes && matchedRouteMethod.None? && next == Enter
      modifies this, pathValues
      ensures Now() == Step(x, old(Now()))
      ensures NamesOf(pathValues[..]) == old(NamesOf(pathValues[..]))
    {
      ghost var p := Now();
      assert x.g[currentNode] == currentNode.View();
      var prefixLen, lcpLen := 0, 0;
      if currentNode.kind == Static {
        prefixLen := |currentNode.prefix|;
        lcpLen := CommonPrefix(search, currentNode.prefix);
      }
      if lcpLen != prefixLen {
        Backtrack(false);
        next := if currentNode == null then Finished else TryParam;
        return;
      }
      search := search[lcpLen..];
      searchIndex := searchIndex + lcpLen;
      ghost var p1 := Now();
      EnterNodeFits(x, p, p1, lcpLen);
      StepAtNode();
    }

    /** The current node has been read completely. */
    method StepAtNode()
      requires Valid() && currentNode in nodes && matchedRouteMethod.None? && next == Enter
      modifies this
      ensures Now() == AtNode(x, old(Now()))
    {
      assert x.g[currentNode] == currentNode.View();
      assert UsableNode(x.g, currentNode);
      if search == "" {
        if currentNode.isHandler {
          if previousBestMatchNode == null {
            previousBestMatchNode := currentNode;
          }
          var h := currentNode.methods.Find(verb, true, autoHead);
          if h.Some? {
            matchedRouteMethod, next := h, Finished;
            return;
          }
        } else if currentNode.methods.NotFound().Some? {
          matchedRouteMethod, next := currentNode.methods.NotFound(), Finished;
          return;
        }
      }
      StepOnward();
    }

    /** Goes on to the static child for the next byte, if there is one. */
    method StepOnward()
      requires Valid() && currentNode in nodes && next == Enter
      modifies this
      ensures Now() == Onward(x, old(Now()))
    {
      assert x.g[currentNode] == currentNode.View();
      assert UsableNode(x.g, currentNode);
      if search != "" {
        var child := currentNode.FindStaticChild(search[0]);
        if child != null {
          currentNode := child;
          return;
        }
      }
      next := TryParam;
    }

    method StepParam()
      requires Valid() && currentNode in nodes && next == TryParam
      requires currentNode.paramChild != null ==> paramIndex < pathValues.Length
      modifies this, pathValues
      ensures Now() == Step(x, old(Now()))
      ensures NamesOf(pathValues[..]) == old(NamesOf(pathValues[..]))
    {
      assert x.g[currentNode] == currentNode.View();
      assert UsableNode(x.g, currentNode);
      var child := currentNode.paramChild;
      if search != "" && child != null {
        TakeParamValue(child);
      } else {
        next := TryAny;
      }
    }

    /** A parameter takes the rest when it is a leaf, and else the rest up to the next slash. */
    method TakeParamValue(child: Node)
      requires Valid() && child in nodes && paramIndex < pathValues.Length
      modifies this, pathValues
      ensures Now() == TakeParam(x, old(Now()), child)
      ensures NamesOf(pathValues[..]) == old(NamesOf(pathValues[..]))
    {
      assert x.g[child] == child.View();
      currentNode := child;
      var i := |search|;
      if !currentNode.isLeaf {
        i := SegmentEnd(search);
      }
      SetValue(paramIndex, search[..i]);
      paramIndex := paramIndex + 1;
      search := search[i..];
      searchIndex := searchIndex + i;
      next := Enter;
    }

    method StepAny()
      requires Valid() && currentNode in nodes && matchedRouteMethod.None? && next == TryAny
      requires currentNode.anyChild == null ==> CanRestore(x, Now())
      requires currentNode.anyChild != null ==> CanTakeAny(x, Now())
      modifies this, pathValues
      ensures Now() == Step(x, old(Now()))
      ensures NamesOf(pathValues[..]) == old(NamesOf(pathValues[..]))
    {
      assert x.g[currentNode] == currentNode.View();
      var child := currentNode.anyChild;
      if child != null {
        StepTakeAny(child);
      } else {
        StepLeave();
      }
    }

    method StepLeave()
      requires Valid() && currentNode in nodes && CanRestore(x, Now())
      modifies this, pathValues
      ensures Now() == Leave(x, old(Now()))
      ensures NamesOf(pathValues[..]) == old(NamesOf(pathValues[..]))
    {
      assert x.g[currentNode] == currentNode.View();
      var kind := currentNode.kind;
      Backtrack(true);
      next := if currentNode == null then Finished else if kind == Static then TryParam else TryAny;
    }

    /** An any child takes the rest of the path and ends the search whether or not it has the method. */
    method StepTakeAny(child: Node)
      requires Valid() && child in nodes && child.kind == Any
      requires next == TryAny && matchedRouteMethod.None?
      requires child.paramsCount == paramIndex + 1 <= pathValues.Length && searchIndex + |search| == |path|
      modifies this, pathValues
      ensures Now() == EndAtAny(x, old(Now()), child)
      ensures NamesOf(pathValues[..]) == old(NamesOf(pathValues[..]))
    {
      TakeAnyValue(child);
      if matchedRouteMethod.Some? {
        next := Finished;
        return;
      }
      Backtrack(true);
      next := Finished;
    }

    method TakeAnyValue(child: Node)
      requires Valid() && child in nodes
      requires matchedRouteMethod.None? && child.paramsCount == paramIndex + 1 <= pathValues.Length
      modifies this, pathValues
      ensures Now() == AnyTaken(x, old(Now()), child)
      ensures NamesOf(pathValues[..]) == old(NamesOf(pathValues[..]))
    {
      assert x.g[child] == child.View();
      TakeRest(child);
      FindAtAny();
    }

    /** The any child takes what is left of the path. */
    method TakeRest(child: Node)
      requires child.paramsCount == paramIndex + 1 <= pathValues.Length
      modifies this`currentNode, this`paramIndex, this`searchIndex, this`search, pathValues
      ensures Now() == old(Now()).(node := child, values := Put(old(Now()).values, old(paramIndex), old(search)),
                                   paramIndex := old(paramIndex) + 1, searchIndex := old(searchIndex) + |old(search)|,
                                   search := "")
      ensures NamesOf(pathValues[..]) == old(NamesOf(pathValues[..]))
    {
      currentNode := child;
      SetValue(currentNode.paramsCount - 1, search);
      paramIndex := paramIndex + 1;
      searchIndex := searchIndex + |search|;
      search := "";
    }

    method FindAtAny()
      requires Valid() && currentNode in nodes && matchedRouteMethod.None?
      modifies this
      ensures currentNode == old(currentNode) && Now() == FoundAtAny(x, old(Now()))
    {
      assert x.g[currentNode] == currentNode.View();
      var rMethod := currentNode.methods.Find(verb, true, autoHead);
      if rMethod.Some? {
        matchedRouteMethod := rMethod;
        return;
      }
      if previousBestMatchNode == null {
        previousBestMatchNode := currentNode;
      }
      if currentNode.methods.NotFound().Some? {
        matchedRouteMethod := currentNode.methods.NotFound();
      }
    }

    /** One step of the loop, by label. */
    method DoStep()
      requires Valid() && CanStep(x, Now())
      modifies this, pathValues
      ensures Now() == Step(x, old(Now()))
      ensures NamesOf(pathValues[..]) == old(NamesOf(pathValues[..]))
    {
      match next
      case Enter => StepEnter();
      case TryParam => StepParam();
      case TryAny => StepAny();
    }

    /** One step of the loop, which brings the search closer to its end. */
    method Advance(ghost trail: seq<Node>) returns (ghost longer: seq<Node>)
      requires Valid() && Searching(x, Now()) && next != Finished
      modifies this, pathValues
      ensures Searching(x, Now()) && IsCloser(x, old(Now()), Now())
      ensures NamesOf(pathValues[..]) == old(NamesOf(pathValues[..]))
      ensures longer + Entered(x, Now()) == trail + Entered(x, old(Now()))
    {
      ghost var p := Now();
      SearchCanStep(x, p);
      SearchSteps(x, p);
      EnteredStep(x, p, trail);
      DoStep();
      longer := trail + EnteredBy(x, p);
      MovedIsCloser(x, p, Now());
    }

    /** The search loop; `trail` lists the nodes in the order in which they were entered. */
    method Run() returns (ghost trail: seq<Node>)
      requires Valid() && Searching(x, Now()) && next == Enter
      modifies this, pathValues
      ensures Searching(x, Now()) && next == Finished
      ensures NamesOf(pathValues[..]) == old(NamesOf(pathValues[..]))
      ensures old(currentNode) != null && trail == [old(currentNode)] + Entered(x, old(Now())) && NoDuplicates(trail)
    {
      ghost var start := Now();
      trail := [currentNode];
      while next != Finished
        invariant Searching(x, Now())
        invariant NamesOf(pathValues[..]) == old(NamesOf(pathValues[..]))
        invariant trail + Entered(x, Now()) == [start.node] + Entered(x, start)
        decreases Ahead(x, Now()), Depth(x, Now()), Turn(Now())
      {
        trail := Advance(trail);
      }
      assert trail + [] == trail;
      NoNodeTwice(x, start);
    }
  }
}
