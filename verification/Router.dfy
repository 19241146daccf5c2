/** The router: the tree of nodes together with what has been registered in it. */
module Router {
  import opened Wrappers
  import opened RoutePaths
  import opened RouteTable
  import opened RadixTree
  import opened RadixInsert
  import opened RadixRemove
  import opened RouteCursor
  import opened RouteSearch
  import opened RouteTheorems
  import opened RouterState

  class DefaultRouter {
    const config: RouterConfig
    var tree: Node
    var routes: seq<RouteInfo>
    /** The highest number of path values of any route. */
    var maxPathParamsLength: nat

    ghost var nodes: set<Node>
    /** What is registered, by shape. */
    ghost var entries: Entries

    ghost predicate Shaped()
      reads this, nodes
    {
      IsShaped(tree, nodes, entries)
    }

    ghost function Skeleton(): set<string>
      reads this, nodes
    {
      SkeletonOf(tree, nodes)
    }

    ghost predicate Valid()
      reads this, nodes
    {
      RouterOk(tree, nodes, entries, maxPathParamsLength) && ListsOnce(routes)
    }

    /** The list of routes and what is registered. */
    ghost function Kept(): Book
      reads this
    {
      Book(routes, entries)
    }

    constructor (config: RouterConfig)
      ensures Valid() && entries == map[] && routes == [] && fresh(nodes) && this.config == config
      ensures Listed(routes, entries)
    {
      this.config := config;
      routes := [];
      tree := new Node.Blank();
      maxPathParamsLength := 0;
      new;
      nodes := {tree};
      entries := map[];
    }

    /** Splits `cur` after `k` bytes of its prefix; the new node takes over all that `cur` held. */
    method SplitNode(cur: Node, k: nat) returns (n: Node)
      requires WellFormed(Snapshot(nodes), tree) && cur in nodes && 0 < k < |cur.prefix| <= |cur.spell|
      modifies this`nodes, nodes
      ensures nodes == old(nodes) + {n} && n !in old(nodes) && fresh(n)
      ensures IsSplit(old(Snapshot(nodes)), Snapshot(nodes), cur, k, n)
    {
      ghost var g := Snapshot(nodes);
      assert g[cur] == cur.View();
      n := LowerNode(cur, k);
      Adopt(cur, n);
      forall m | m in nodes && m != cur
        ensures m.View() == if g[m].parent == cur then g[m].(parent := n) else g[m]
      {
        assert g[m] == old(m.View());
      }
      assert cur.View() == g[cur] by {
        assert NodeOk(g, tree, cur);
      }
      FinishSplit(g, cur, k, n);
    }

    method FinishSplit(ghost g: Graph, cur: Node, k: nat, n: Node)
      requires g.Keys == nodes && cur in nodes && n !in nodes
      requires cur.View() == g[cur] && 0 < k < |cur.prefix| <= |cur.spell| && n.View() == LowerHalf(g[cur], k, cur)
      requires forall m :: m in nodes && m != cur ==> m.View() == if g[m].parent == cur then g[m].(parent := n) else g[m]
      modifies this`nodes, cur
      ensures nodes == old(nodes) + {n} && IsSplit(g, Snapshot(nodes), cur, k, n)
    {
      cur.ResetUpper(k, n);
      nodes := nodes + {n};
      assert Snapshot(nodes)[n] == n.View() && Snapshot(nodes)[cur] == cur.View();
    }

    method LowerNode(cur: Node, k: nat) returns (n: Node)
      requires WellFormed(Snapshot(nodes), tree) && cur in nodes && 0 < k < |cur.prefix|
      ensures fresh(n) && n.View() == LowerHalf(cur.View(), k, cur)
    {
      ghost var g := Snapshot(nodes);
      assert NodeOk(g, tree, cur);
      assert g[cur] == cur.View();
      forall i | 0 <= i < |cur.staticChildren|
        ensures cur.staticChildren[i].lead == cur.scLabels[i]
      {
        assert ChildOk(g, cur, cur.staticChildren[i], Static);
        assert g[cur.staticChildren[i]] == cur.staticChildren[i].View();
      }
      n := new Node(cur.kind, cur.prefix[k..], cur, cur.staticChildren, cur.methods, cur.paramsCount,
                    cur.originalPath, cur.paramChild, cur.anyChild, cur.spell);
      assert n.View() == LowerHalf(cur.View(), k, cur);
    }

    /** Makes `n` the parent of every child of `cur`. */
    method Adopt(cur: Node, n: Node)
      requires WellFormed(Snapshot(nodes), tree) && cur in nodes
      modifies nodes`parent
      ensures forall m :: m in nodes && old(m.parent) == cur ==> m.parent == n
      ensures forall m :: m in nodes && old(m.parent) != cur ==> m.parent == old(m.parent)
    {
      ghost var g := Snapshot(nodes);
      ChildrenOf(g, tree, cur);
      assert g[cur] == cur.View();
      forall m | m in nodes
        ensures m.parent == cur <==> m in cur.staticChildren || m == cur.paramChild || m == cur.anyChild
      {
        assert g[m] == m.View();
      }
      for i := 0 to |cur.staticChildren|
        invariant forall m :: m in nodes ==> m.parent == if m in cur.staticChildren[..i] then n else old(m.parent)
      {
        cur.staticChildren[i].parent := n;
      }
      if cur.paramChild != null {
        cur.paramChild.parent := n;
      }
      if cur.anyChild != null {
        cur.anyChild.parent := n;
      }
    }

    /** Sets the handler that an insertion carries, if it carries one. */
    method BindHere(cur: Node, verb: string, rm: Option<RouteMethod>)
      requires cur in nodes
      modifies cur`methods, cur`isHandler, cur`paramsCount, cur`originalPath
      ensures cur.View() == BindCellIf(old(cur.View()), verb, rm)
      ensures Snapshot(nodes) == old(Snapshot(nodes))[cur := BindCellIf(old(cur.View()), verb, rm)]
    {
      if rm.Some? {
        cur.SetHandler(verb, rm);
        cur.paramsCount := |rm.value.params|;
        cur.originalPath := rm.value.path;
      }
    }

    method NewPiece(cur: Node, t: Kind, prefix: string, verb: string, rm: Option<RouteMethod>) returns (n: Node)
      requires prefix != ""
      ensures fresh(n) && n.View() == NewCell(cur, t, prefix, cur.spell + prefix, verb, rm)
    {
      n := new Node(t, prefix, cur, [], NoMethods, 0, if rm.Some? then rm.value.path else "", null, null,
                    cur.spell + prefix);
      if rm.Some? {
        n.SetHandler(verb, rm);
        n.paramsCount := |rm.value.params|;
      }
    }

    /** Links a new node for the last piece of a path under `cur`. */
    method AddNewChild(cur: Node, t: Kind, prefix: string, verb: string, rm: Option<RouteMethod>) returns (n: Node)
      requires cur in nodes && prefix != ""
      modifies this`nodes, cur
      ensures nodes == old(nodes) + {n} && n !in old(nodes) && fresh(n)
      ensures IsAddChild(old(Snapshot(nodes)), Snapshot(nodes), cur, n, NewCell(cur, t, prefix, old(cur.spell) + prefix, verb, rm))
    {
      n := NewPiece(cur, t, prefix, verb, rm);
      Link(cur, t, n);
      nodes := nodes + {n};
      assert Snapshot(nodes)[n] == n.View() && Snapshot(nodes)[cur] == cur.View();
    }

    method Link(cur: Node, t: Kind, n: Node)
      requires n != cur
      modifies cur
      ensures cur.View() == Linked(old(cur.View()), n, n.lead, t)
    {
      match t {
        case Static => cur.AddStaticChild(n);
        case Param => cur.paramChild := n;
        case Any => cur.anyChild := n;
      }
      cur.RefreshLeaf();
    }

    /** The first insertion gives the root its prefix. */
    method InsertRoot(t: Kind, path: string, verb: string, rm: Option<RouteMethod>, ghost head: string)
      requires Shaped() && tree.prefix == "" && CanInsert(SkeletonOf(tree, nodes), t, path, rm, head)
      modifies tree
      ensures nodes == old(nodes) && tree == old(tree) && tree.prefix == path
      ensures WellFormed(Snapshot(nodes), tree) && Spells(Snapshot(nodes)) == {path} && Represents(Snapshot(nodes), BindIf(map[], path, verb, rm))
    {
      assert head == "" && path[0..] == path;
      assert Snapshot(nodes)[tree] == tree.View();
      SetRoot(t, path, verb, rm);
      assert Snapshot(nodes)[tree] == tree.View();
      RootCellOk(Snapshot(nodes), tree, path, verb, rm);
    }

    method SetRoot(t: Kind, path: string, verb: string, rm: Option<RouteMethod>)
      requires path != "" && t == Static && tree in nodes
      requires tree.View() == Cell(null, NoMethods, null, null, "", "", [], [], 0, Static, tree.lead, true, false, "")
      modifies tree
      ensures tree.View() == RootCell(path, verb, rm)
    {
      tree.lead := path[0];
      tree.prefix := path;
      tree.spell := path;
      if rm.Some? {
        tree.kind := t;
      }
      ghost var c := tree.View();
      assert c == Cell(null, NoMethods, null, null, path, "", [], [], 0, Static, path[0], true, false, path);
      BindHere(tree, verb, rm);
      tree.RefreshLeaf();
    }

    method InsertHere(cur: Node, path: string, verb: string, rm: Option<RouteMethod>, ghost skel: set<string>)
      requires Holds(tree, nodes, entries, skel) && cur in nodes && cur.spell == path
      requires rm.Some? ==> RouteFits(path, rm.value)
      modifies cur`methods, cur`isHandler, cur`paramsCount, cur`originalPath
      ensures Holds(tree, nodes, BindIf(entries, path, verb, rm), skel)
    {
      assert Snapshot(nodes)[cur] == cur.View();
      if rm.Some? {
        BindAtNode(Snapshot(nodes), tree, entries, cur, verb, rm.value);
      }
      BindHere(cur, verb, rm);
      assert rm.None? ==> Snapshot(nodes) == old(Snapshot(nodes));
    }

    method InsertAsChild(cur: Node, t: Kind, rest: string, path: string, verb: string, rm: Option<RouteMethod>, ghost skel: set<string>)
      returns (ghost n: Node)
      requires Holds(tree, nodes, entries, skel) && cur in nodes && rest != "" && path == cur.spell + rest
      requires HasRoom(cur.View(), rest[0], t) && (rm.Some? ==> RouteFits(path, rm.value))
      requires PieceOk(t, rest, rm)
      modifies this`nodes, cur
      ensures fresh(n) && nodes == old(nodes) + {n}
      ensures Holds(tree, nodes, BindIf(entries, path, verb, rm), skel + {path})
    {
      ghost var g := Snapshot(nodes);
      assert g[cur] == cur.View();
      n := AddNewChild(cur, t, rest, verb, rm);
      InsertedChild(g, Snapshot(nodes), tree, entries, cur, n, t, rest, path, verb, rm);
      assert Snapshot(nodes)[tree] == tree.View();
    }

    /** The path parts from the prefix of `cur` after `k` bytes, of which `b` is the spelling above `cur`. */
    method InsertBySplit(cur: Node, k: nat, t: Kind, search: string, path: string, verb: string,
                         rm: Option<RouteMethod>, ghost b: string, ghost skel: set<string>)
      requires Holds(tree, nodes, entries, skel)
      requires cur in nodes && cur.spell == b + cur.prefix && t == Static
      requires 0 < k < |cur.prefix| && k <= |search| && IsPlain(search[k..])
      requires k < |search| ==> search[k] != cur.prefix[k]
      requires b + cur.prefix[..k] + search[k..] == path && (rm.Some? ==> RouteFits(path, rm.value))
      modifies this`nodes, nodes
      ensures OnlyFresh(old(nodes), nodes)
      ensures Holds(tree, nodes, BindIf(entries, path, verb, rm), skel + {b + old(cur.prefix)[..k], path})
    {
      if k == |search| {
        SplitAndBind(cur, k, t, path, verb, rm, b, skel);
      } else {
        SplitAndAdd(cur, k, t, search[k..], path, verb, rm, b, skel);
      }
    }

    method SplitAndAdd(cur: Node, k: nat, t: Kind, rest: string, path: string, verb: string,
                       rm: Option<RouteMethod>, ghost b: string, ghost skel: set<string>)
      requires Holds(tree, nodes, entries, skel)
      requires cur in nodes && cur.spell == b + cur.prefix && t == Static && IsPlain(rest)
      requires 0 < k < |cur.prefix| && rest != "" && rest[0] != cur.prefix[k]
      requires b + cur.prefix[..k] + rest == path && (rm.Some? ==> RouteFits(path, rm.value))
      modifies this`nodes, nodes
      ensures OnlyFresh(old(nodes), nodes)
      ensures Holds(tree, nodes, BindIf(entries, path, verb, rm), skel + {b + old(cur.prefix)[..k], path})
    {
      ghost var mid := b + cur.prefix[..k];
      ghost var low, n := SplitThenAdd(cur, k, t, rest, path, verb, rm, b, skel);
      assert skel + {mid} + {path} == skel + {mid, path};
    }

    method SplitThenAdd(cur: Node, k: nat, t: Kind, rest: string, path: string, verb: string,
                        rm: Option<RouteMethod>, ghost b: string, ghost skel: set<string>)
      returns (ghost low: Node, ghost n: Node)
      requires Holds(tree, nodes, entries, skel)
      requires cur in nodes && cur.spell == b + cur.prefix && t == Static && IsPlain(rest)
      requires 0 < k < |cur.prefix| && rest != "" && rest[0] != cur.prefix[k]
      requires b + cur.prefix[..k] + rest == path && (rm.Some? ==> RouteFits(path, rm.value))
      modifies this`nodes, nodes
      ensures nodes == old(nodes) + {low} + {n} && fresh(low) && fresh(n)
      ensures Holds(tree, nodes, BindIf(entries, path, verb, rm), skel + {b + old(cur.prefix)[..k]} + {path})
    {
      ghost var mid := b + cur.prefix[..k];
      low := SplitHere(cur, k, b, skel);
      n := AddAfterSplit(cur, t, rest, path, verb, rm, skel + {mid});
    }

    method AddAfterSplit(cur: Node, t: Kind, rest: string, path: string, verb: string, rm: Option<RouteMethod>, ghost skel: set<string>)
      returns (ghost n: Node)
      requires Holds(tree, nodes, entries, skel) && cur in nodes && cur.kind == Static && t == Static
      requires rest != "" && IsPlain(rest) && rest[0] !in cur.scLabels
      requires cur.spell + rest == path && (rm.Some? ==> RouteFits(path, rm.value))
      modifies this`nodes, cur
      ensures fresh(n) && nodes == old(nodes) + {n}
      ensures Holds(tree, nodes, BindIf(entries, path, verb, rm), skel + {path})
    {
      n := InsertAsChild(cur, t, rest, path, verb, rm, skel);
    }

    method SplitAndBind(cur: Node, k: nat, t: Kind, path: string, verb: string, rm: Option<RouteMethod>, ghost b: string, ghost skel: set<string>)
      requires Holds(tree, nodes, entries, skel)
      requires cur in nodes && cur.spell == b + cur.prefix && t == Static
      requires 0 < k < |cur.prefix| && b + cur.prefix[..k] == path && (rm.Some? ==> RouteFits(path, rm.value))
      modifies this`nodes, nodes
      ensures OnlyFresh(old(nodes), nodes)
      ensures Holds(tree, nodes, BindIf(entries, path, verb, rm), skel + {path})
    {
      ghost var low := SplitHere(cur, k, b, skel);
      BindUpper(cur, t, path, verb, rm, skel + {path});
    }

    lemma PathGoesDown(path: string, b: string, search: string, prefix: string, k: nat)
      requires path == b + search && k == |prefix| <= |search| && search[..k] == prefix[..k]
      ensures path == b + prefix + search[k..]
    {
      assert search == search[..k] + search[k..];
    }

    lemma PathParts(path: string, b: string, search: string, k: nat)
      requires path == b + search && k <= |search|
      ensures path[..|b| + k] == b + search[..k] && path[|b| + k..] == search[k..]
      ensures b + search[..k] + search[k..] == path
      ensures k == |search| ==> b + search[..k] == path
    {
      assert search[..k] + search[k..] == search;
    }

    method SplitHere(cur: Node, k: nat, ghost b: string, ghost skel: set<string>) returns (ghost n: Node)
      requires Holds(tree, nodes, entries, skel) && cur in nodes && cur.spell == b + cur.prefix && 0 < k < |cur.prefix|
      modifies this`nodes, nodes
      ensures fresh(n) && nodes == old(nodes) + {n}
      ensures Holds(tree, nodes, entries, skel + {b + old(cur.prefix)[..k]})
      ensures cur.spell == b + old(cur.prefix)[..k] && cur.kind == Static && !cur.isLeaf
      ensures cur.scLabels == [old(cur.prefix)[k]] && cur.paramChild == null && cur.anyChild == null
    {
      ghost var g := Snapshot(nodes);
      assert g[cur] == cur.View();
      n := SplitNode(cur, k);
      SplitNodeEffect(g, Snapshot(nodes), tree, entries, cur, k, n, b);
      UpperAfterSplit(g, Snapshot(nodes), cur, k, n, b);
      RootAfterSplit(g, Snapshot(nodes), tree, cur, k, n);
      assert Snapshot(nodes)[tree] == tree.View() && Snapshot(nodes)[cur] == cur.View();
    }

    /** The path ends where the node was split. */
    method BindUpper(cur: Node, t: Kind, path: string, verb: string, rm: Option<RouteMethod>, ghost skel: set<string>)
      requires Holds(tree, nodes, entries, skel) && cur in nodes && cur.spell == path && t == Static
      requires cur.kind == Static && |cur.scLabels| == 1 && !cur.isLeaf
      requires rm.Some? ==> RouteFits(path, rm.value)
      modifies cur
      ensures Holds(tree, nodes, BindIf(entries, path, verb, rm), skel)
    {
      KeepKind(cur, t);
      InsertHere(cur, path, verb, rm, skel);
      KeepLeaf(cur, BindIf(entries, path, verb, rm), skel);
    }

    method KeepKind(cur: Node, t: Kind)
      requires cur in nodes && cur.kind == t
      modifies cur`kind
      ensures Snapshot(nodes) == old(Snapshot(nodes))
      ensures cur.spell == old(cur.spell)
    {
      cur.kind := t;
      assert cur.View() == old(cur.View());
    }

    /** In a well-formed tree the leaf flag is right already. */
    method KeepLeaf(cur: Node, ghost e: Entries, ghost skel: set<string>)
      requires Holds(tree, nodes, e, skel) && cur in nodes
      modifies cur`isLeaf
      ensures Holds(tree, nodes, e, skel)
    {
      assert Snapshot(nodes)[cur] == cur.View() && NodeOk(Snapshot(nodes), tree, cur);
      cur.RefreshLeaf();
      assert cur.View() == old(cur.View());
      assert Snapshot(nodes) == old(Snapshot(nodes));
    }

    /**
     Walks down as far as the path leads: to a prefix that it does not share in full, to a node with
     no child for its next byte, or to the node that it spells. `b` is the spelling above that node.
     */
    method Locate(path: string) returns (currentNode: Node, search: string, lcpLen: nat, ghost b: string)
      requires Shaped() && path != "" && path[0] == '/'
      ensures IsLocated(tree, nodes, currentNode, path, search, lcpLen, b)
    {
      currentNode, search, b := tree, path, "";
      lcpLen := CommonPrefix(search, currentNode.prefix);
      if tree.prefix == "" {
        return;
      }
      assert NodeOk(Snapshot(nodes), tree, tree) && Snapshot(nodes)[tree] == tree.View();
      while lcpLen == |currentNode.prefix| && lcpLen < |search|
        invariant currentNode in nodes && currentNode.spell == b + currentNode.prefix && path == b + search
        invariant lcpLen == CommonPrefixLength(search, currentNode.prefix) > 0
        invariant |currentNode.scLabels| == |currentNode.staticChildren|
        decreases |search|
      {
        assert Snapshot(nodes)[currentNode] == currentNode.View();
        ChildTowardsFacts(Snapshot(nodes), tree, currentNode, search[lcpLen]);
        var c := currentNode.FindChildWithLabel(search[lcpLen]);
        if c == null {
          return;
        }
        assert Snapshot(nodes)[c] == c.View();
        PathGoesDown(path, b, search, currentNode.prefix, lcpLen);
        b := currentNode.spell;
        search := search[lcpLen..];
        currentNode := c;
        lcpLen := CommonPrefix(search, currentNode.prefix);
      }
    }

    /** Adds the piece at the place that `Locate` found, in one of four ways. */
    method Place(currentNode: Node, search: string, lcpLen: nat, t: Kind, path: string, verb: string,
                 rm: Option<RouteMethod>, ghost head: string, ghost b: string, ghost skel: set<string>)
      returns (ghost added: set<string>)
      requires Indexed(tree, nodes, entries, skel) && CanInsert(skel, t, path, rm, head)
      requires IsLocated(tree, nodes, currentNode, path, search, lcpLen, b)
      modifies this`nodes, nodes
      ensures OnlyFresh(old(nodes), nodes)
      ensures IsPlaced(tree, nodes, BindIf(entries, path, verb, rm), skel, added, path)
    {
      if lcpLen == 0 {
        added := PlaceAtRoot(t, path, verb, rm, head, skel);
      } else if lcpLen < |currentNode.prefix| {
        added := PlaceBySplit(currentNode, lcpLen, t, search, path, verb, rm, head, b, skel);
      } else if lcpLen < |search| {
        added := PlaceAsChild(currentNode, search, lcpLen, t, path, verb, rm, head, b, skel);
      } else {
        added := PlaceAtNode(currentNode, search, path, verb, rm, b, skel);
      }
    }

    method PlaceAtRoot(t: Kind, path: string, verb: string, rm: Option<RouteMethod>, ghost head: string, ghost skel: set<string>)
      returns (ghost added: set<string>)
      requires Indexed(tree, nodes, entries, skel) && tree.prefix == "" && CanInsert(skel, t, path, rm, head)
      modifies tree
      ensures IsPlaced(tree, nodes, BindIf(entries, path, verb, rm), skel, added, path)
    {
      InsertRoot(t, path, verb, rm, head);
      added := {path};
      assert skel + added == {path};
    }

    method PlaceBySplit(cur: Node, k: nat, t: Kind, search: string, path: string, verb: string,
                        rm: Option<RouteMethod>, ghost head: string, ghost b: string, ghost skel: set<string>)
      returns (ghost added: set<string>)
      requires Holds(tree, nodes, entries, skel) && CanInsert(skel, t, path, rm, head)
      requires cur in nodes && cur.spell == b + cur.prefix && path == b + search
      requires 0 < k < |cur.prefix| && k == CommonPrefixLength(search, cur.prefix)
      modifies this`nodes, nodes
      ensures OnlyFresh(old(nodes), nodes)
      ensures IsPlaced(tree, nodes, BindIf(entries, path, verb, rm), skel, added, path)
    {
      PathParts(path, b, search, k);
      assert Snapshot(nodes)[cur] == cur.View();
      RoomAfterSplit(Snapshot(nodes), tree, t, path, rm, head, cur, b, k);
      added := {b + search[..k], path};
      assert AllOnWay(added, path);
      InsertBySplit(cur, k, t, search, path, verb, rm, b, skel);
    }

    method PlaceAsChild(cur: Node, search: string, k: nat, t: Kind, path: string, verb: string,
                        rm: Option<RouteMethod>, ghost head: string, ghost b: string, ghost skel: set<string>)
      returns (ghost added: set<string>)
      requires Holds(tree, nodes, entries, skel) && CanInsert(skel, t, path, rm, head)
      requires cur in nodes && cur.spell == b + cur.prefix && path == b + search
      requires k == CommonPrefixLength(search, cur.prefix) == |cur.prefix| < |search|
      requires |cur.scLabels| == |cur.staticChildren| && ChildTowards(cur.View(), search[k]) == null
      modifies this`nodes, cur
      ensures OnlyFresh(old(nodes), nodes)
      ensures IsPlaced(tree, nodes, BindIf(entries, path, verb, rm), skel, added, path)
    {
      PathGoesDown(path, b, search, cur.prefix, k);
      assert Snapshot(nodes)[cur] == cur.View();
      RoomForRest(Snapshot(nodes), tree, t, path, rm, head, cur);
      assert path[|cur.spell|..] == search[k..];
      added := {path};
      ghost var n := InsertAsChild(cur, t, search[k..], path, verb, rm, skel);
    }

    method PlaceAtNode(cur: Node, search: string, path: string, verb: string, rm: Option<RouteMethod>, ghost b: string, ghost skel: set<string>)
      returns (ghost added: set<string>)
      requires Holds(tree, nodes, entries, skel) && (rm.Some? ==> RouteFits(path, rm.value))
      requires cur in nodes && cur.spell == b + cur.prefix && path == b + search
      requires CommonPrefixLength(search, cur.prefix) == |cur.prefix| == |search|
      modifies cur
      ensures IsPlaced(tree, nodes, BindIf(entries, path, verb, rm), skel, added, path)
    {
      assert search == search[..|search|] == cur.prefix[..|search|] == cur.prefix;
      assert Snapshot(nodes)[cur] == cur.View();
      assert cur.spell in Spells(Snapshot(nodes));
      added := {};
      assert skel + added == skel;
      InsertHere(cur, path, verb, rm, skel);
    }

    method PlacePiece(t: Kind, path: string, verb: string, rm: Option<RouteMethod>, ghost head: string,
                      ghost skel: set<string>)
      returns (ghost added: set<string>)
      requires Indexed(tree, nodes, entries, skel) && CanInsert(skel, t, path, rm, head)
      modifies this`nodes, nodes
      ensures OnlyFresh(old(nodes), nodes)
      ensures IsPlaced(tree, nodes, BindIf(entries, path, verb, rm), skel, added, path)
    {
      var currentNode, search, lcpLen;
      ghost var b;
      currentNode, search, lcpLen, b := Locate(path);
      added := Place(currentNode, search, lcpLen, t, path, verb, rm, head, b, skel);
    }

    /**
     Places one piece of a path. The binding of `path` and `verb` is the only one that changes, and
     none does when the insertion carries no handler.
     */
    method Insert(t: Kind, path: string, verb: string, rm: Option<RouteMethod>, ghost head: string, ghost skel: set<string>)
      returns (ghost added: set<string>)
      requires Indexed(tree, nodes, entries, skel) && CanInsert(skel, t, path, rm, head)
      modifies this`nodes, this`entries, this`maxPathParamsLength, nodes
      ensures OnlyFresh(old(nodes), nodes)
      ensures Indexed(tree, nodes, entries, skel + added) && entries == BindIf(old(entries), path, verb, rm)
      ensures path in skel + added && AllOnWay(added, path)
      ensures maxPathParamsLength == MaxParams(old(maxPathParamsLength), rm)
    {
      added := PlacePiece(t, path, verb, rm, head, skel);
      Record(BindIf(entries, path, verb, rm), rm, skel + added);
    }

    method Record(ghost e: Entries, rm: Option<RouteMethod>, ghost skel: set<string>)
      requires Holds(tree, nodes, e, skel)
      modifies this`entries, this`maxPathParamsLength
      ensures entries == e && maxPathParamsLength == MaxParams(old(maxPathParamsLength), rm)
      ensures Indexed(tree, nodes, entries, skel)
    {
      HoldsIsIndexed(tree, nodes, e, skel);
      entries := e;
      if rm.Some? && |rm.value.params| > maxPathParamsLength {
        maxPathParamsLength := |rm.value.params|;
      }
    }

    // -------------------------------------------------------------------------
    // Registration.

    /** A mark: first the static piece before it, without a handler, then the mark itself. */
    method InsertMark(t: Kind, path: string, i: nat, verb: string, rm: Option<RouteMethod>, ghost head: string, ghost skel: set<string>)
      returns (ghost added: set<string>)
      requires Indexed(tree, nodes, entries, skel) && 0 < i < |path| && CanInsert(skel, Static, path[..i], None, head)
      requires CanInsert(skel + {path[..i]}, t, path[..i + 1], rm, path[..i])
      modifies this`nodes, this`entries, this`maxPathParamsLength, nodes
      ensures OnlyFresh(old(nodes), nodes)
      ensures Indexed(tree, nodes, entries, skel + added)
      ensures entries == BindIf(old(entries), path[..i + 1], verb, rm)
      ensures path[..i + 1] in skel + added && AllOnWay(added, path[..i + 1])
      ensures maxPathParamsLength == MaxParams(old(maxPathParamsLength), rm)
    {
      ghost var before := Insert(Static, path[..i], verb, None, head, skel);
      assert CanInsert(skel + before, t, path[..i + 1], rm, path[..i]);
      ghost var after := Insert(t, path[..i + 1], verb, rm, path[..i], skel + before);
      added := before + after;
      JoinAdded(skel, before, after, path[..i], path[..i + 1]);
    }

    /** Inserts every piece of a path; only the last one carries the handler. */
    method InsertPath(orig: string, verb: string, name: string, h: Handler, headHandler: Option<Handler>,
                      ghost skel: set<string>)
      returns (names: seq<string>, ghost added: set<string>)
      requires Indexed(tree, nodes, entries, skel) && orig != "" && orig[0] == '/'
      modifies this`nodes, this`entries, this`maxPathParamsLength, nodes
      ensures names == Names(orig)
      ensures OnlyFresh(old(nodes), nodes)
      ensures Indexed(tree, nodes, entries, skel + added) && AllOnWay(added, Shape(orig))
      ensures BoundSoFar(old(entries), entries, old(maxPathParamsLength), maxPathParamsLength, orig,
                         RouteMethod(verb, orig, Names(orig), name, h, headHandler), true)
    {
      var path, wasAdded;
      ghost var head;
      path, wasAdded, names, added, head := InsertMarks(orig, verb, name, h, headHandler, skel);
      AtEnd(orig, path, names, head, skel, added, wasAdded, old(entries), entries, old(maxPathParamsLength),
            maxPathParamsLength, RouteMethod(verb, orig, Names(orig), name, h, headHandler));
      if !wasAdded {
        ghost var more := InsertEnd(orig, path, names, verb, name, h, headHandler, head, skel + added);
        JoinAdded(skel, added, more, path, Shape(orig));
        added := added + more;
      }
    }

    /** Goes through the path from left to right, up to a mark that ends it or to its end. */
    method InsertMarks(orig: string, verb: string, name: string, h: Handler, headHandler: Option<Handler>,
                       ghost skel: set<string>)
      returns (path: string, wasAdded: bool, names: seq<string>, ghost added: set<string>, ghost head: string)
      requires Indexed(tree, nodes, entries, skel) && orig != "" && orig[0] == '/'
      modifies this`nodes, this`entries, this`maxPathParamsLength, nodes
      ensures OnlyFresh(old(nodes), nodes) && Indexed(tree, nodes, entries, skel + added)
      ensures Inserting(orig, path, |path|, names, head, skel, added, wasAdded, old(entries), entries,
                        old(maxPathParamsLength), maxPathParamsLength,
                        RouteMethod(verb, orig, Names(orig), name, h, headHandler))
    {
      var i: nat;
      path, i, wasAdded := orig, 0, false;
      names, added, head := [], {}, "";
      ghost var rm := RouteMethod(verb, orig, Names(orig), name, h, headHandler);
      StartsInserting(orig, skel, entries, maxPathParamsLength, rm);
      while i < |path| && !wasAdded
        invariant OnlyFresh(old(nodes), nodes) && Indexed(tree, nodes, entries, skel + added)
        invariant Inserting(orig, path, i, names, head, skel, added, wasAdded, old(entries), entries,
                            old(maxPathParamsLength), maxPathParamsLength, rm)
        decreases if i <= |path| then |path| - i else 0, !wasAdded
      {
        if IsMark(path[i]) {
          wasAdded, path, i, names, added, head :=
            InsertNext(orig, path, i, names, verb, name, h, headHandler, head, added, skel, old(entries), old(maxPathParamsLength));
        } else {
          ReadsPlain(orig, path, i, names, head, skel, added, old(entries), entries, old(maxPathParamsLength),
                     maxPathParamsLength, rm);
          i := i + 1;
        }
      }
      ReadsToEnd(orig, path, i, names, head, skel, added, wasAdded, old(entries), entries, old(maxPathParamsLength),
                 maxPathParamsLength, rm);
    }

    /** The mark at `i`, after the pieces in `before`. */
    method InsertNext(orig: string, path: string, i: nat, names: seq<string>, verb: string, name: string, h: Handler,
                      headHandler: Option<Handler>, ghost head: string, ghost before: set<string>, ghost skel: set<string>,
                      ghost e0: Entries, ghost max0: nat)
      returns (wasAdded: bool, path': string, i': nat, names': seq<string>, ghost added: set<string>, ghost head': string)
      requires Indexed(tree, nodes, entries, skel + before) && i < |path| && IsMark(path[i])
      requires Inserting(orig, path, i, names, head, skel, before, false, e0, entries, max0, maxPathParamsLength,
                         RouteMethod(verb, orig, Names(orig), name, h, headHandler))
      modifies this`nodes, this`entries, this`maxPathParamsLength, nodes
      ensures OnlyFresh(old(nodes), nodes) && Indexed(tree, nodes, entries, skel + added)
      ensures Inserting(orig, path', i', names', head', skel, added, wasAdded, e0, entries, max0, maxPathParamsLength,
                        RouteMethod(verb, orig, Names(orig), name, h, headHandler))
      ensures Advances(orig, path, i, path', i', wasAdded)
    {
      wasAdded, path', i', names', added, head' :=
        InsertAtMark(orig, path, i, names, verb, name, h, headHandler, head, skel + before);
      JoinInserting(orig, path, i, path', i', names', head', skel, before, added, wasAdded, e0, entries, max0,
                    maxPathParamsLength, RouteMethod(verb, orig, Names(orig), name, h, headHandler));
      added := before + added;
    }

    /** Handles the mark at `i` and moves past it. */
    method InsertAtMark(orig: string, path: string, i: nat, names: seq<string>, verb: string, name: string, h: Handler,
                        headHandler: Option<Handler>, ghost head: string, ghost skel: set<string>)
      returns (wasAdded: bool, path': string, i': nat, names': seq<string>, ghost added: set<string>, ghost head': string)
      requires Indexed(tree, nodes, entries, skel) && ReadSoFar(orig, path, i, names, head, skel, false)
      requires i < |path| && IsMark(path[i])
      modifies this`nodes, this`entries, this`maxPathParamsLength, nodes
      ensures OnlyFresh(old(nodes), nodes) && Indexed(tree, nodes, entries, skel + added)
      ensures Inserting(orig, path', i', names', head', skel, added, wasAdded, old(entries), entries,
                        old(maxPathParamsLength), maxPathParamsLength,
                        RouteMethod(verb, orig, Names(orig), name, h, headHandler))
      ensures Advances(orig, path, i, path', i', wasAdded)
    {
      if path[i] == PARAM_LABEL {
        wasAdded, path', i', names', added, head' := InsertParam(orig, path, i, names, verb, name, h, headHandler, head, skel);
      } else {
        ReadAny(orig, path, i, names, head);
        wasAdded, path', i', names', head' := true, path, i, names + ["*"], head;
        added := LastMark(orig, Any, path, i, names', names, head, verb, name, h, headHandler, skel);
        MarkEnds(orig, path, i, path', i', names', head', skel, added, old(entries), entries, old(maxPathParamsLength),
                 maxPathParamsLength, RouteMethod(verb, orig, Names(orig), name, h, headHandler));
      }
    }

    /** Cuts the name out of the path; a parameter that ends the path carries the handler. */
    method InsertParam(orig: string, path: string, i: nat, names: seq<string>, verb: string, name: string, h: Handler,
                       headHandler: Option<Handler>, ghost head: string, ghost skel: set<string>)
      returns (wasAdded: bool, path': string, i': nat, names': seq<string>, ghost added: set<string>, ghost head': string)
      requires Indexed(tree, nodes, entries, skel) && ReadSoFar(orig, path, i, names, head, skel, false)
      requires i < |path| && path[i] == PARAM_LABEL
      modifies this`nodes, this`entries, this`maxPathParamsLength, nodes
      ensures OnlyFresh(old(nodes), nodes) && Indexed(tree, nodes, entries, skel + added)
      ensures Inserting(orig, path', i', names', head', skel, added, wasAdded, old(entries), entries,
                        old(maxPathParamsLength), maxPathParamsLength,
                        RouteMethod(verb, orig, Names(orig), name, h, headHandler))
      ensures Advances(orig, path, i, path', i', wasAdded)
    {
      var e := SegmentEnd(path[i..]);
      e := i + e;
      names', path' := names + [path[i + 1..e]], path[..i + 1] + path[e..];
      ReadParam(orig, path, i, names, head, e, path');
      ghost var rm := RouteMethod(verb, orig, Names(orig), name, h, headHandler);
      if |path'| == i + 1 {
        wasAdded, i', head' := true, i + 1, head;
        added := LastMark(orig, Param, path, i, names', names, head, verb, name, h, headHandler, skel);
        MarkEnds(orig, path, i, path', i', names', head', skel, added, old(entries), entries, old(maxPathParamsLength),
                 maxPathParamsLength, rm);
      } else {
        wasAdded, i', head' := false, i + 2, path'[..i + 1];
        added := InnerMark(orig, path, i, names, verb, head, skel);
        MarkInside(orig, path, i, path', names', skel, added, entries, maxPathParamsLength, rm);
      }
    }

    /** The static piece that ends a path carries the handler. */
    method InsertEnd(orig: string, path: string, names: seq<string>, verb: string, name: string, h: Handler,
                     headHandler: Option<Handler>, ghost head: string, ghost skel: set<string>)
      returns (ghost added: set<string>)
      requires Indexed(tree, nodes, entries, skel) && PathRead(orig, path, |path|, names, head) && (head != "" ==> head in skel)
      modifies this`nodes, this`entries, this`maxPathParamsLength, nodes
      ensures OnlyFresh(old(nodes), nodes)
      ensures Indexed(tree, nodes, entries, skel + added) && AllOnWay(added, Shape(orig))
      ensures entries == Bind(old(entries), Shape(orig), verb, RouteMethod(verb, orig, Names(orig), name, h, headHandler))
      ensures Names(orig) == names
      ensures maxPathParamsLength >= old(maxPathParamsLength) && maxPathParamsLength >= CountMarks(Shape(orig))
    {
      var rm := RouteMethod(verb, orig, names, name, h, headHandler);
      EndCanBeInserted(skel, orig, path, names, head, rm);
      added := Insert(Static, path, verb, Some(rm), head, skel);
    }

    /** A parameter inside the path carries no handler. */
    method InnerMark(orig: string, path: string, i: nat, names: seq<string>, verb: string, ghost head: string, ghost skel: set<string>)
      returns (ghost added: set<string>)
      requires Indexed(tree, nodes, entries, skel) && PathRead(orig, path, i, names, head) && 0 < i < |path| && path[i] == PARAM_LABEL
      requires head != "" ==> head in skel
      modifies this`nodes, this`entries, this`maxPathParamsLength, nodes
      ensures OnlyFresh(old(nodes), nodes)
      ensures Indexed(tree, nodes, entries, skel + added) && AllOnWay(added, path[..i + 1])
      ensures entries == old(entries) && maxPathParamsLength == old(maxPathParamsLength)
      ensures path[..i + 1] in skel + added
    {
      MarkCanBeInserted(skel, orig, path, i, names, head, Param, None);
      added := InsertMark(Param, path, i, verb, None, head, skel);
    }

    /** The mark that ends the path carries the handler. */
    method LastMark(orig: string, t: Kind, path: string, i: nat, names: seq<string>, ghost before: seq<string>,
                    ghost head: string, verb: string, name: string, h: Handler, headHandler: Option<Handler>, ghost skel: set<string>)
      returns (ghost added: set<string>)
      requires Indexed(tree, nodes, entries, skel) && PathRead(orig, path, i, before, head) && 0 < i < |path| && IsMark(path[i])
      requires t == if path[i] == PARAM_LABEL then Param else Any
      requires Shape(orig) == path[..i + 1] && Names(orig) == names && (head != "" ==> head in skel)
      modifies this`nodes, this`entries, this`maxPathParamsLength, nodes
      ensures OnlyFresh(old(nodes), nodes)
      ensures Indexed(tree, nodes, entries, skel + added) && AllOnWay(added, Shape(orig))
      ensures entries == Bind(old(entries), Shape(orig), verb, RouteMethod(verb, orig, Names(orig), name, h, headHandler))
      ensures maxPathParamsLength >= old(maxPathParamsLength) && maxPathParamsLength >= CountMarks(Shape(orig))
    {
      NamesMatchShape(orig);
      var rm := RouteMethod(verb, orig, names, name, h, headHandler);
      MarkCanBeInserted(skel, orig, path, i, before, head, t, Some(rm));
      added := InsertMark(t, path, i, verb, Some(rm), head, skel);
    }

    /** Replaces the listing with the same method and path, or adds one. */
    method StoreRouteInfo(ri: RouteInfo)
      modifies this`routes
      ensures routes == StoredRoutes(old(routes), ri)
    {
      for i := 0 to |routes|
        invariant routes == old(routes)
        invariant forall j :: 0 <= j < i ==> routes[j].verb != ri.verb || routes[j].path != ri.path
      {
        if ri.verb == routes[i].verb && ri.path == routes[i].path {
          StoredAt(routes, ri, i);
          routes := routes[i := ri];
          return;
        }
      }
      StoredAtEnd(routes, ri);
      routes := routes + [ri];
    }

    /** Whether the list has the method and path of the registration. */
    method IsDuplicate(route: Route) returns (b: bool)
      ensures b <==> IsListed(routes, route.verb, route.path)
    {
      for i := 0 to |routes|
        invariant forall j :: 0 <= j < i ==> routes[j].verb != route.verb || routes[j].path != route.path
      {
        if route.verb == routes[i].verb && route.path == routes[i].path {
          return true;
        }
      }
      b := false;
    }

    /**
     Registers a route. It fails for a missing handler and, unless overwriting is allowed, for a path
     and method that are listed already; otherwise it binds exactly the shape and method of the route.
     */
    method Add(route: Route) returns (r: Result<RouteInfo, AddError>)
      requires Valid() && !HasEscape(Normalize(route.path))
      modifies this`routes, this`nodes, this`entries, this`maxPathParamsLength, nodes
      ensures Valid() && tree == old(tree) && OnlyFresh(old(nodes), nodes)
      ensures r == Registration(config, old(routes), route) && Kept() == AddTo(config, old(Kept()), route)
      ensures r.Success? ==> IsListed(routes, route.verb, route.path)
                             && IsBoundIn(entries, Shape(Normalize(route.path)), route.verb)
      ensures old(Listed(routes, entries)) && route.path == Normalize(route.path) ==> Listed(routes, entries)
    {
      var allowOverwritingRoute := config.allowOverwritingRoute || route.allowOverwrite;
      var handler := route.handler;
      if handler.None? {
        if route.verb == ROUTE_NOT_FOUND {
          handler := Some(config.fallbacks.notFound);
        } else if route.verb == METHOD_OPTIONS {
          handler := Some(config.fallbacks.options);
        } else {
          return Failure(NoHandler);
        }
      }
      var path := Normalize(route.path);
      if !allowOverwritingRoute {
        var duplicate := IsDuplicate(route);
        if duplicate {
          return Failure(DuplicateRoute);
        }
      }
      var ri := Register(route, path, handler.value);
      r := Success(ri);
    }

    method Register(route: Route, path: string, h: Handler) returns (ri: RouteInfo)
      requires Valid() && path == Normalize(route.path) && !HasEscape(path)
      modifies this`routes, this`nodes, this`entries, this`maxPathParamsLength, nodes
      ensures Valid() && tree == old(tree) && OnlyFresh(old(nodes), nodes)
      ensures ri == ToRouteInfo(route, Names(path)) && routes == StoredRoutes(old(routes), ri)
      ensures entries == Bind(old(entries), Shape(path), route.verb, Registered(config, route, h))
      ensures IsListed(routes, route.verb, route.path)
      ensures old(Listed(routes, entries)) && route.path == path ==> Listed(routes, entries)
    {
      var headH := None;
      if config.autoHandleHead && route.verb == METHOD_GET {
        headH := Some(HeadOf(h));
      }
      var paramNames := AddPath(path, route.verb, route.name, h, headH);
      ri := ToRouteInfo(route, paramNames);
      StoreRouteInfo(ri);
      StoringListsOnce(old(routes), ri);
      StoringKeepsListed(old(routes), ri, ri.verb, ri.path);
      if old(Listed(routes, entries)) && route.path == path {
        AddKeepsListed(old(routes), old(entries), ri, Registered(config, route, h));
      }
    }

    method AddPath(path: string, verb: string, name: string, h: Handler, headHandler: Option<Handler>)
      returns (names: seq<string>)
      requires Valid() && path != "" && path[0] == '/'
      modifies this`nodes, this`entries, this`maxPathParamsLength, nodes
      ensures Valid() && tree == old(tree) && OnlyFresh(old(nodes), nodes) && names == Names(path)
      ensures entries == Bind(old(entries), Shape(path), verb, RouteMethod(verb, path, Names(path), name, h, headHandler))
    {
      ghost var skel, e := Skeleton(), entries;
      ghost var added;
      names, added := InsertPath(path, verb, name, h, headHandler, skel);
      BindKeepsEntriesOk(e, path, RouteMethod(verb, path, Names(path), name, h, headHandler));
      StillCovered(skel, added, e, Shape(path), verb, RouteMethod(verb, path, Names(path), name, h, headHandler));
    }

    // -------------------------------------------------------------------------
    // Removal.

    /** Walks down by the bytes of the path to the node that handles it under this very path. */
    method FindRegistered(path: string) returns (node: Node?)
      requires WellFormed(Snapshot(nodes), tree) && Represents(Snapshot(nodes), entries) && NoNotFound(entries)
      ensures node != null ==> node in nodes && node.isHandler && node.originalPath == path
      ensures IsPlain(path) && path in entries ==> node != null
    {
      ghost var g := Snapshot(nodes);
      var currentNode: Node?, prefixLen := tree, 0;
      StartsOnWay(g, tree, entries, path);
      while currentNode != null
        invariant currentNode != null ==> currentNode in nodes
        invariant KeepsWay(g, entries, currentNode, path, prefixLen)
        decreases Remaining(g, currentNode)
      {
        assert g[currentNode] == currentNode.View();
        if currentNode.originalPath == path && currentNode.isHandler {
          return currentNode;
        }
        ghost var above, k := currentNode, prefixLen;
        NotYet(g, tree, entries, currentNode, path, prefixLen);
        if currentNode.kind == Static {
          prefixLen := prefixLen + |currentNode.prefix|;
        } else {
          prefixLen := |currentNode.originalPath|;
        }
        if prefixLen >= |path| {
          return null;
        }
        NextIsCloser(g, tree, above, path[prefixLen]);
        currentNode := Next(currentNode, path[prefixLen]);
        GoesOnWay(g, tree, entries, above, path, k, prefixLen, currentNode);
      }
      node := null;
    }

    /** The child for one byte of a path. */
    method Next(n: Node, l: char) returns (c: Node?)
      requires |n.scLabels| == |n.staticChildren|
      ensures c == NextOf(n.View(), l)
    {
      if l == PARAM_LABEL {
        c := n.paramChild;
      } else if l == ANY_LABEL {
        c := n.anyChild;
      } else {
        c := n.FindStaticChild(l);
      }
    }

    /** Merges a node that handles nothing with its only child, a static one. */
    method CompactNode(n: Node, ghost skel: set<string>)
      requires Prunes(tree, nodes, entries, skel) && n in nodes && n.kind == Static && (!n.isHandler ==> !IsBound(n.View()))
      modifies this`nodes, nodes
      ensures Prunes(tree, nodes, entries, skel) && nodes <= old(nodes)
    {
      if n.parent == null || n.isHandler || |n.staticChildren| != 1 || n.paramChild != null || n.anyChild != null {
        return;
      }
      MergeChild(n, n.staticChildren[0], skel);
    }

    method MergeChild(n: Node, child: Node, ghost skel: set<string>)
      requires Prunes(tree, nodes, entries, skel) && n in nodes && n.kind == Static && !IsBound(n.View())
      requires IsCompactable(n.View()) && n.staticChildren == [child]
      modifies this`nodes, nodes
      ensures Prunes(tree, nodes, entries, skel) && nodes <= old(nodes)
    {
      ghost var g := Snapshot(nodes);
      assert g[n] == n.View() && g[tree] == tree.View();
      AbsorbChild(n, child);
      MergeNodes(g, Snapshot(nodes), tree, entries, n, child);
      MergeFacts(g, Snapshot(nodes), tree, n, child);
      assert Snapshot(nodes)[tree] == tree.View();
    }

    method AbsorbChild(n: Node, child: Node)
      requires WellFormed(Snapshot(nodes), tree) && n in nodes && IsCompactable(n.View()) && n.staticChildren == [child]
      modifies this`nodes, nodes
      ensures nodes == old(nodes) - {child} && IsMerge(old(Snapshot(nodes)), Snapshot(nodes), n, child)
    {
      ghost var g := Snapshot(nodes);
      assert g[n] == n.View() && NodeOk(g, tree, n) && ChildOk(g, n, n.staticChildren[0], Static);
      assert g[child] == child.View() && NodeOk(g, tree, child);
      Adopt(child, n);
      FinishMerge(g, n, child);
    }

    method FinishMerge(ghost g: Graph, n: Node, child: Node)
      requires g.Keys == nodes && n in nodes && child in nodes && n != child
      requires IsCompactable(g[n]) && g[n].staticChildren == [child]
      requires forall m :: m in nodes ==> m.View() == if g[m].parent == child then g[m].(parent := n) else g[m]
      requires g[n].parent != child && g[child].parent != child
      modifies this`nodes, n
      ensures nodes == old(nodes) - {child} && IsMerge(g, Snapshot(nodes), n, child)
    {
      assert n.View() == g[n] && child.View() == g[child];
      AbsorbHere(n, child);
      nodes := nodes - {child};
      assert Snapshot(nodes)[n] == n.View();
    }

    method AbsorbHere(n: Node, child: Node)
      requires n != child
      modifies n
      ensures n.View() == Merged(old(n.View()), old(child.View()))
    {
      n.Absorb(child);
    }

    /** Takes a leaf out of its parent and out of the tree. */
    method CutOff(current: Node, parent: Node, ghost skel: set<string>)
      requires Prunes(tree, nodes, entries, skel) && current in nodes && current != tree && current.parent == parent
      requires HasNoChildren(current.View()) && !IsBound(current.View()) && IsPlain(current.spell)
      modifies this`nodes, nodes
      ensures Prunes(tree, nodes, entries, skel) && nodes == old(nodes) - {current}
      ensures parent in nodes && IsPlain(parent.spell) && parent.kind == Static && parent.isLeaf == HasNoChildren(parent.View())
    {
      ghost var g := Snapshot(nodes);
      assert g[current] == current.View() && g[tree] == tree.View();
      PlainIsStatic(g, tree, current);
      PlainIsStatic(g, tree, parent);
      UnlinkFrom(current, parent);
      DetachLeaf(g, Snapshot(nodes), tree, entries, current, parent);
      assert Snapshot(nodes)[tree] == tree.View() && Snapshot(nodes)[parent] == parent.View();
    }

    method UnlinkFrom(current: Node, parent: Node)
      requires WellFormed(Snapshot(nodes), tree) && current in nodes && current != tree && current.parent == parent
      modifies this`nodes, nodes
      ensures nodes == old(nodes) - {current} && IsDetach(old(Snapshot(nodes)), Snapshot(nodes), current, parent)
      ensures parent in nodes && parent.spell == old(parent.spell) && parent.kind == old(parent.kind)
    {
      ghost var g := Snapshot(nodes);
      assert g[current] == current.View() && NodeOk(g, tree, current);
      assert g[parent] == parent.View() && NodeOk(g, tree, parent);
      parent.Unlink(current);
      nodes := nodes - {current};
      assert Snapshot(nodes)[parent] == parent.View();
    }

    /** Cuts off the leaf and every leaf that this leaves above it, as long as they bind nothing. */
    method Prune(node: Node, ghost skel: set<string>)
      requires Prunes(tree, nodes, entries, skel) && NoNotFound(entries) && node in nodes
      requires HasNoChildren(node.View()) && !IsBound(node.View()) && IsPlain(node.spell)
      modifies this`nodes, nodes
      ensures Prunes(tree, nodes, entries, skel) && nodes <= old(nodes)
    {
      var current := node;
      while current.parent != null
        invariant Prunes(tree, nodes, entries, skel) && nodes <= old(nodes) && current in nodes
        invariant HasNoChildren(current.View()) && !IsBound(current.View()) && IsPlain(current.spell)
        decreases nodes
      {
        var parent := current.parent;
        assert NodeOk(Snapshot(nodes), tree, tree) && Snapshot(nodes)[tree] == tree.View();
        CutOff(current, parent, skel);
        HandlesIffBound(Snapshot(nodes), tree, entries, parent);
        assert Snapshot(nodes)[parent] == parent.View();
        if !parent.isLeaf || parent.isHandler {
          CompactNode(parent, skel);
          return;
        }
        current := parent;
      }
    }

    /** Prunes or compacts at a node that handles nothing any more. */
    method TidyUp(n: Node, ghost skel: set<string>)
      requires Prunes(tree, nodes, entries, skel) && NoNotFound(entries) && n in nodes && IsPlain(n.spell)
      modifies this`nodes, nodes
      ensures Prunes(tree, nodes, entries, skel) && nodes <= old(nodes)
    {
      assert Snapshot(nodes)[n] == n.View() && NodeOk(Snapshot(nodes), tree, n);
      HandlesIffBound(Snapshot(nodes), tree, entries, n);
      PlainIsStatic(Snapshot(nodes), tree, n);
      if !n.isHandler && n.isLeaf {
        Prune(n, skel);
      } else if !n.isHandler {
        CompactNode(n, skel);
      }
    }

    method Unset(n: Node, verb: string, path: string, ghost skel: set<string>)
      requires Prunes(tree, nodes, entries, skel) && n in nodes
      requires IsPlain(path) && n.spell == path && IsBound(n.View())
      modifies this`entries, n`methods, n`isHandler
      ensures entries == Unbind(old(entries), path, verb) && Prunes(tree, nodes, entries, skel)
    {
      ghost var g := Snapshot(nodes);
      assert g[n] == n.View() && g[tree] == tree.View();
      PlainIsStatic(g, tree, n);
      UnbindAtNode(g, tree, entries, n, verb);
      UnsetHere(n, verb);
      assert Snapshot(nodes)[tree] == tree.View();
      entries := Unbind(entries, path, verb);
    }

    method UnsetHere(n: Node, verb: string)
      requires n in nodes
      modifies n`methods, n`isHandler
      ensures Snapshot(nodes) == old(Snapshot(nodes))[n := UnbindCell(old(n.View()), verb)]
    {
      n.SetHandler(verb, None);
      assert n.View() == UnbindCell(old(n.View()), verb);
    }

    /** Takes the first listing with this method and path off the list, or the very first listing if there is none. */
    method Unlist(verb: string, path: string) returns (error: Option<RemoveError>)
      modifies this`routes
      ensures routes == if old(routes) == [] then [] else Unlisted(old(routes), verb, path)
      ensures error == if old(routes) == [] then Some(SliceOutOfRange) else None
    {
      var rIndex := 0;
      var i := 0;
      while i < |routes| && !(routes[i].verb == verb && routes[i].path == path)
        invariant i <= |routes| && forall j :: 0 <= j < i ==> routes[j].verb != verb || routes[j].path != path
      {
        i := i + 1;
      }
      if i < |routes| {
        rIndex := i;
      }
      if rIndex + 1 > |routes| {
        return Some(SliceOutOfRange);
      }
      assert rIndex == ListIndex(routes, verb, path);
      routes := Without(routes, rIndex);
      error := None;
    }

    /**
     Takes away the route of a path without parameters. Exactly that binding goes, every other route stays bound, and
     the places that only led to it are pruned and compacted. The listing that goes is the route's own, unless the route
     was registered without its slash; an empty list makes the call panic after the handler has been unset.
     */
    method Remove(verb: string, path: string) returns (error: Option<RemoveError>)
      requires Valid() && IsPlain(path) && verb in BUILT_IN_METHODS && NoNotFound(entries)
      modifies this`routes, this`nodes, this`entries, nodes
      ensures Valid() && nodes <= old(nodes) && NoNotFound(entries)
      ensures Kept() == RemoveFrom(old(Kept()), verb, path)
      ensures forall v, own :: IsListed(old(routes), v, own) ==>
                (!IsListed(routes, v, own) <==> error.None? && Goes(old(routes), verb, Normalize(path), v, own))
      ensures error.None? <==> IsBoundIn(old(entries), Normalize(path), verb) && old(routes) != []
      ensures error == Some(SliceOutOfRange) <==> IsBoundIn(old(entries), Normalize(path), verb) && old(routes) == []
      ensures error == Some(NoSuchMethod)
         <==> Normalize(path) in old(entries) && !IsBoundIn(old(entries), Normalize(path), verb)
      ensures error == Some(NoRoutes) <==> old(tree.isLeaf && !tree.isHandler)
      ensures error.Some? && error != Some(SliceOutOfRange) ==> nodes == old(nodes)
      ensures old(Listed(routes, entries)) ==> Listed(routes, entries) && error != Some(SliceOutOfRange)
    {
      var p := Normalize(path);
      var nodeToRemove;
      error, nodeToRemove := FindRoute(verb, p);
      if error.None? {
        error := TakeAway(nodeToRemove, verb, p);
        if old(Listed(routes, entries)) {
          assert IsListed(old(routes), verb, p);
          RemoveKeepsListed(old(routes), old(entries), verb, p);
        }
        UnlistsEach(old(routes), verb, p);
      }
    }

    method TakeAway(n: Node, verb: string, path: string) returns (error: Option<RemoveError>)
      requires Valid() && NoNotFound(entries) && tree.prefix != "" && n in nodes
      requires IsPlain(path) && n.spell == path && IsBound(n.View())
      modifies this`routes, this`nodes, this`entries, nodes
      ensures Valid() && nodes <= old(nodes) && NoNotFound(entries)
      ensures entries == Unbind(old(entries), path, verb)
      ensures routes == if old(routes) == [] then [] else Unlisted(old(routes), verb, path)
      ensures error == if old(routes) == [] then Some(SliceOutOfRange) else None
    {
      ghost var skel, e := Skeleton(), entries;
      UnbindKeepsNoNotFound(e, path, verb);
      assert Covered(skel, e) && MarksBounded(e, maxPathParamsLength) && EntriesOk(e);
      error := RemoveHandler(n, verb, path, skel);
      RemovedOk(tree, nodes, e, path, verb, maxPathParamsLength, skel);
      UnlistingListsOnce(old(routes), verb, path);
    }

    /** Unsets the handler, takes a listing off the list and tidies up the tree, in this order. */
    method RemoveHandler(n: Node, verb: string, path: string, ghost skel: set<string>) returns (error: Option<RemoveError>)
      requires Prunes(tree, nodes, entries, skel) && NoNotFound(entries) && n in nodes
      requires IsPlain(path) && n.spell == path && IsBound(n.View())
      modifies this`routes, this`nodes, this`entries, nodes
      ensures Prunes(tree, nodes, entries, skel) && nodes <= old(nodes)
      ensures entries == Unbind(old(entries), path, verb)
      ensures routes == if old(routes) == [] then [] else Unlisted(old(routes), verb, path)
      ensures error == if old(routes) == [] then Some(SliceOutOfRange) else None
    {
      Unset(n, verb, path, skel);
      UnbindKeepsNoNotFound(old(entries), path, verb);
      error := Unlist(verb, path);
      if error.None? {
        TidyUp(n, skel);
      }
    }

    /** The node that handles the path and method, or what is missing. */
    method FindRoute(verb: string, path: string) returns (error: Option<RemoveError>, node: Node?)
      requires Valid() && IsPlain(path) && path != "" && path[0] == '/' && NoNotFound(entries)
      ensures error.None? <==> IsBoundIn(entries, path, verb)
      ensures error == Some(NoSuchMethod) <==> path in entries && error.Some?
      ensures error == Some(NoRoutes) <==> tree.isLeaf && !tree.isHandler
      ensures error != Some(SliceOutOfRange)
      ensures error.None? ==> tree.prefix != "" && node in nodes && node.spell == path && IsBound(node.View())
    {
      node := null;
      if tree.isLeaf && !tree.isHandler {
        NothingAtAll(tree, nodes, entries);
        return Some(NoRoutes), null;
      }
      assert Snapshot(nodes)[tree] == tree.View();
      node := FindRegistered(path);
      if node == null {
        return Some(NoSuchPath), null;
      }
      assert Snapshot(nodes)[node] == node.View();
      FoundSpells(Snapshot(nodes), tree, entries, node, path);
      if node.methods.Find(verb, false, false).None? {
        return Some(NoSuchMethod), node;
      }
      error := None;
    }

    // -------------------------------------------------------------------------
    // Routing.

    /** The slice of path values cut to the current node, with the names of the matched route. */
    method NamePathValues(pathValues: array<PathValue>, n: nat, names: seq<string>) returns (values: seq<PathValue>)
      requires |names| <= n <= pathValues.Length
      modifies pathValues
      ensures values == Bindings(old(NamesOf(pathValues[..])), old(ValuesOf(pathValues[..])), n, names)
    {
      ghost var slots, vals := NamesOf(pathValues[..]), ValuesOf(pathValues[..]);
      for i := 0 to |names|
        invariant forall j :: 0 <= j < pathValues.Length ==>
                    pathValues[j] == PathValue(if j < i then names[j] else slots[j], vals[j])
      {
        pathValues[i] := PathValue(names[i], pathValues[i].value);
      }
      values := pathValues[..n];
    }

    /** The answer once the search is over. */
    method Conclude(c: Cursor) returns (result: RouteResult)
      requires c.Valid() && Searching(c.x, c.Now()) && c.next == Finished
      requires c.x.total.Hit? ==> IsBoundAt(c.x.q, c.x.total.shape, c.x.total.route)
      modifies c.pathValues
      ensures Resolvable(c.x.total, old(NamesOf(c.pathValues[..])))
      ensures result == Resolve(c.x.q, config.fallbacks, c.x.total, old(NamesOf(c.pathValues[..])))
    {
      OutcomeNodes(c.x, c.Now());
      var currentNode, best := c.currentNode, c.previousBestMatchNode;
      if currentNode == null && best == null {
        return RouteResult(config.fallbacks.notFound, NotMatched, "", []);
      }
      if c.matchedRouteMethod.Some? {
        assert c.x.g[currentNode] == currentNode.View();
        var rm := c.matchedRouteMethod.value;
        var rHandler := rm.handler;
        if c.verb == METHOD_HEAD && rm.headHandler.Some? {
          rHandler := rm.headHandler.value;
        }
        var values := NamePathValues(c.pathValues, currentNode.paramsCount, rm.params);
        result := RouteResult(rHandler, Matched(rm), rm.path, values);
      } else {
        assert c.x.g[best] == best.View();
        var notFound := best.methods.NotFound();
        if notFound.Some? {
          var rm := notFound.value;
          var values := NamePathValues(c.pathValues, best.paramsCount, rm.params);
          result := RouteResult(rm.handler, Matched(rm), rm.path, values);
        } else {
          assert best.isHandler;
          var rHandler := config.fallbacks.methodNotAllowed;
          if c.verb == METHOD_OPTIONS {
            rHandler := config.fallbacks.options;
          }
          var values := NamePathValues(c.pathValues, best.paramsCount, []);
          result := RouteResult(rHandler, MethodNotAllowed, best.originalPath, values);
        }
      }
    }

    /**
     Finds the handler for a method and path. The answer is that of the reference search over what is
     registered; the loop ends, and enters no node twice.
     */
    method Route(verb: string, path: string, pathValues: array<PathValue>)
      returns (result: RouteResult, ghost trail: seq<Node>)
      requires Valid() && pathValues.Length >= maxPathParamsLength
      modifies pathValues
      ensures var o := Lookup(RequestQuery(entries, verb, config.autoHandleHead), path, old(ValuesOf(pathValues[..])));
              && Resolvable(o, old(NamesOf(pathValues[..])))
              && result == Resolve(RequestQuery(entries, verb, config.autoHandleHead), config.fallbacks, o,
                                   old(NamesOf(pathValues[..])))
      ensures trail == old(VisitedNodes(tree, nodes, entries, verb, config.autoHandleHead, path, ValuesOf(pathValues[..])))
      ensures NoDuplicates(trail)
      ensures result.info == NotMatched <==> !SomeFits(RequestQuery(entries, verb, config.autoHandleHead), "", path)
    {
      ghost var values := ValuesOf(pathValues[..]);
      var cursor;
      cursor, trail := Search(verb, path, pathValues);
      result := Conclude(cursor);
      AnswerReadsBindings(cursor.x.q, path, values, config.fallbacks, old(NamesOf(pathValues[..])));
    }

    /** Runs the search for a request to its end. */
    method Search(verb: string, path: string, pathValues: array<PathValue>) returns (c: Cursor, ghost trail: seq<Node>)
      requires Valid() && pathValues.Length >= maxPathParamsLength
      modifies pathValues
      ensures fresh(c) && c.pathValues == pathValues && c.verb == verb && c.Valid()
      ensures Searching(c.x, c.Now()) && c.next == Finished && NamesOf(pathValues[..]) == old(NamesOf(pathValues[..]))
      ensures c.x == old(RequestContext(tree, nodes, entries, verb, config.autoHandleHead, path, ValuesOf(pathValues[..])))
      ensures Covers(c.x.q) && (c.x.total.Hit? ==> IsBoundAt(c.x.q, c.x.total.shape, c.x.total.route))
      ensures trail == old(VisitedNodes(tree, nodes, entries, verb, config.autoHandleHead, path, ValuesOf(pathValues[..])))
      ensures NoDuplicates(trail)
    {
      ghost var x := RequestContext(tree, nodes, entries, verb, config.autoHandleHead, path, ValuesOf(pathValues[..]));
      TreeMakesContext(tree, nodes, entries, Skeleton(), maxPathParamsLength, x);
      c := new Cursor(tree, path, verb, config.autoHandleHead, pathValues, nodes, x);
      SearchHitsBound(x.q, "", path, State(ValuesOf(pathValues[..]), None));
      trail := c.Run();
    }
  }
}
