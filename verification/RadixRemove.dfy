/**
 The changes that a removal makes to the tree: a handler is unset, leaves that bind nothing are cut
 off, and a node that only leads to one static child is merged with it.
 */
module RadixRemove {
  import opened Wrappers
  import opened RoutePaths
  import opened RouteTable
  import opened RadixTree
  import opened RadixInsert

  /** Takes one route out of the entry of its shape; an entry that binds nothing goes. */
  function Unbind(entries: Entries, shape: string, verb: string): Entries {
    if shape !in entries then entries
    else
      var m := entries[shape].methods.Set(verb, None);
      if m.bound == map[] then entries - {shape} else entries[shape := Entry(m, entries[shape].lastPath)]
  }

  lemma UnbindsOne(entries: Entries, shape: string, verb: string, s: string, v: string)
    ensures IsBoundIn(Unbind(entries, shape, verb), s, v) <==> IsBoundIn(entries, s, v) && !(s == shape && v == verb)
  {
    if shape in entries && s == shape && IsBoundIn(entries, s, v) && v != verb {
      assert v in entries[shape].methods.Set(verb, None).bound;
    }
  }

  function UnbindCell(c: Cell, verb: string): Cell {
    var m := c.methods.Set(verb, None);
    c.(methods := m, isHandler := exists v :: v in m.bound && v != ROUTE_NOT_FOUND)
  }

  /** A path whose shape has no mark is its own shape. */
  lemma {:induction false} PlainShape(path: string)
    requires IsPlain(Shape(path))
    ensures Shape(path) == path
    decreases |path|
  {
    if path != "" {
      assert !IsMark(Shape(path)[0]);
      StaticFirst(path);
      PlainSuffix(Shape(path), 0, 1);
      assert Shape(path)[1..] == Shape(path[1..]);
      PlainShape(path[1..]);
    }
  }

  lemma {:induction false} ShapeOfPlain(path: string)
    requires IsPlain(path)
    ensures Shape(path) == path
  {
    if path != "" {
      PlainSuffix(path, 0, 1);
      ShapeOfPlain(path[1..]);
    }
  }

  lemma UnbindCellOk(c: Cell, verb: string)
    requires CellOk(c) && BindingOk(c) && c.kind != Any
    ensures CellOk(UnbindCell(c, verb)) && BindingOk(UnbindCell(c, verb))
  {
    var m := UnbindCell(c, verb).methods;
    assert forall v :: v in m.bound ==> v in c.methods.bound && m.bound[v] == c.methods.bound[v];
  }

  /** Unsetting a handler changes one entry. */
  lemma UnbindAtNode(g: Graph, root: Node, entries: Entries, n: Node, verb: string)
    requires WellFormed(g, root) && Represents(g, entries) && n in g && g[n].kind != Any && IsBound(g[n])
    ensures var g1 := g[n := UnbindCell(g[n], verb)];
            WellFormed(g1, root) && Spells(g1) == Spells(g) && Represents(g1, Unbind(entries, g[n].spell, verb))
  {
    assert NodeOk(g, root, n);
    var c := UnbindCell(g[n], verb);
    UnbindCellOk(g[n], verb);
    UpdateKeepsLinks(g, root, n, c);
    var g1, e1 := g[n := c], Unbind(entries, g[n].spell, verb);
    assert Agrees(g, entries, n);
    forall m | m in g1
      ensures Agrees(g1, e1, m)
    {
      assert Agrees(g, entries, m);
      if m != n && g[m].spell == g[n].spell {
        SpellsDiffer(g, root, m, n);
      }
    }
  }

  // ---------------------------------------------------------------------------
  // Cutting off a leaf.

  ghost predicate IsDetach(g: Graph, g1: Graph, n: Node, p: Node) {
    && n in g && p in g && n != p && g[n].parent == p
    && g1.Keys == g.Keys - {n}
    && IsUnlinked(g[p], g1[p], n, g[n].kind)
    && (forall m {:trigger g1[m]} :: m in g && m != n && m != p ==> g1[m] == g[m])
  }

  lemma WithoutAt<T>(s: seq<T>, i: nat, j: nat)
    requires i < |s| && j < |s| - 1
    ensures Without(s, i)[j] == s[if j < i then j else j + 1]
  {
  }

  lemma NoChildOfLeaf(g: Graph, root: Node, n: Node, m: Node)
    requires WellFormed(g, root) && n in g && m in g && HasNoChildren(g[n])
    ensures m == root || g[m].parent != n
  {
    assert NodeOk(g, root, m);
  }

  lemma DetachUp(g: Graph, g1: Graph, root: Node, n: Node, p: Node, m: Node)
    requires WellFormed(g, root) && IsDetach(g, g1, n, p) && HasNoChildren(g[n]) && m in g && m != n
    ensures UpOk(g1, root, m)
  {
    assert NodeOk(g, root, m) && NodeOk(g, root, n) && NodeOk(g, root, p);
    NoChildOfLeaf(g, root, n, m);
    assert SameButLinks(g[m], g1[m]);
    if m != root {
      var u := g[m].parent;
      assert IsChild(g, u, m);
      assert SameButLinks(g[u], g1[u]);
      if u == p && g[m].kind == Static && g[n].kind == Static {
        OthersRemain(g[p].staticChildren, n, m);
      }
    }
  }

  lemma OthersRemain<T>(s: seq<T>, x: T, y: T)
    requires y in s && y != x
    ensures y in Without(s, IndexOf(s, x))
  {
    var j :| 0 <= j < |s| && s[j] == y;
    var i := IndexOf(s, x);
    if i < |s| {
      WithoutAt(s, i, if j < i then j else j - 1);
    }
  }

  lemma DetachKeepsChild(g: Graph, g1: Graph, n: Node, p: Node, m: Node, d: Node?, kind: Kind)
    requires IsDetach(g, g1, n, p) && m in g && ChildOk(g, m, d, kind) && d != n
    ensures ChildOk(g1, m, d, kind) && (d != null ==> g1[d].lead == g[d].lead)
  {
    if d != null {
      assert SameButLinks(g[d], g1[d]);
    }
  }

  lemma DetachStatics(g: Graph, g1: Graph, root: Node, n: Node, p: Node, m: Node)
    requires WellFormed(g, root) && IsDetach(g, g1, n, p) && m in g && m != n && n != root
    ensures StaticsOk(g1, m)
  {
    assert NodeOk(g, root, m) && NodeOk(g, root, n);
    var sc, labels := g[m].staticChildren, g[m].scLabels;
    var cut := m == p && g[n].kind == Static;
    var i := IndexOf(sc, n);
    assert cut ==> i < |sc| && IsChild(g, p, n);
    forall j | 0 <= j < |g1[m].staticChildren|
      ensures ChildOk(g1, m, g1[m].staticChildren[j], Static)
      ensures |g1[m].scLabels| == |g1[m].staticChildren|
      ensures g1[g1[m].staticChildren[j]].lead == g1[m].scLabels[j]
    {
      var k := if cut && i <= j then j + 1 else j;
      if cut {
        WithoutAt(sc, i, j);
        WithoutAt(labels, i, j);
      }
      assert g1[m].staticChildren[j] == sc[k] && g1[m].scLabels[j] == labels[k];
      assert ChildOk(g, m, sc[k], Static);
      assert sc[k] != n;
      DetachKeepsChild(g, g1, n, p, m, sc[k], Static);
    }
    if cut {
      WithoutStaysDistinct(labels, i);
    }
  }

  lemma WithoutStaysDistinct(labels: seq<char>, i: nat)
    requires i < |labels| && forall j, k :: 0 <= j < k < |labels| ==> labels[j] != labels[k]
    ensures var rest := Without(labels, i); forall j, k :: 0 <= j < k < |rest| ==> rest[j] != rest[k]
  {
    var rest := Without(labels, i);
    forall j, k | 0 <= j < k < |rest| ensures rest[j] != rest[k] {
      WithoutAt(labels, i, j);
      WithoutAt(labels, i, k);
    }
  }

  lemma DetachDown(g: Graph, g1: Graph, root: Node, n: Node, p: Node, m: Node)
    requires WellFormed(g, root) && IsDetach(g, g1, n, p) && m in g && m != n && n != root
    ensures DownOk(g1, m)
  {
    assert NodeOk(g, root, m) && NodeOk(g, root, n);
    DetachStatics(g, g1, root, n, p, m);
    if g1[m].paramChild != null {
      DetachKeepsChild(g, g1, n, p, m, g[m].paramChild, Param);
    }
    if g1[m].anyChild != null {
      DetachKeepsChild(g, g1, n, p, m, g[m].anyChild, Any);
    }
  }

  /** Cutting off a leaf that binds nothing keeps everything that is bound. */
  lemma DetachLeaf(g: Graph, g1: Graph, root: Node, entries: Entries, n: Node, p: Node)
    requires WellFormed(g, root) && Represents(g, entries) && IsDetach(g, g1, n, p)
    requires n != root && HasNoChildren(g[n]) && !IsBound(g[n]) && g[p].kind != Any
    ensures WellFormed(g1, root) && Represents(g1, entries) && Spells(g1) <= Spells(g)
  {
    forall m | m in g1 ensures NodeOk(g1, root, m) && Agrees(g1, entries, m) {
      DetachNodeOk(g, g1, root, n, p, m);
      assert Agrees(g, entries, m) && SameButLinks(g[m], g1[m]);
    }
    DetachSpells(g, g1, entries, n, p);
  }

  lemma DetachNodeOk(g: Graph, g1: Graph, root: Node, n: Node, p: Node, m: Node)
    requires WellFormed(g, root) && IsDetach(g, g1, n, p) && m in g1
    requires n != root && HasNoChildren(g[n]) && g[p].kind != Any
    ensures NodeOk(g1, root, m)
  {
    assert NodeOk(g, root, m);
    DetachUp(g, g1, root, n, p, m);
    DetachDown(g, g1, root, n, p, m);
    DetachCellOk(g, g1, root, n, p, m);
  }

  lemma DetachCellOk(g: Graph, g1: Graph, root: Node, n: Node, p: Node, m: Node)
    requires WellFormed(g, root) && IsDetach(g, g1, n, p) && m in g1 && g[p].kind != Any
    ensures CellOk(g1[m]) && BindingOk(g1[m])
  {
    assert NodeOk(g, root, m);
    assert SameButLinks(g[m], g1[m]);
  }

  lemma DetachSpells(g: Graph, g1: Graph, entries: Entries, n: Node, p: Node)
    requires Represents(g, entries) && IsDetach(g, g1, n, p) && !IsBound(g[n])
    ensures Spells(g1) <= Spells(g)
    ensures forall s :: s in entries ==> s in Spells(g1)
  {
    forall s | s in entries ensures s in Spells(g1) {
      var m := Spelled(g, s);
      assert Agrees(g, entries, m) && Agrees(g, entries, n);
      assert m != n && SameButLinks(g[m], g1[m]);
      assert g1[m].spell == s;
    }
    forall s | s in Spells(g1) ensures s in Spells(g) {
      var m := Spelled(g1, s);
      assert SameButLinks(g[m], g1[m]) && g[m].spell == s;
    }
  }

  // ---------------------------------------------------------------------------
  // Merging a node with its only child.

  ghost predicate IsMerge(g: Graph, g1: Graph, n: Node, d: Node) {
    && n in g && d in g && n != d && IsCompactable(g[n]) && g[n].staticChildren == [d]
    && g1.Keys == g.Keys - {d}
    && g1[n] == Merged(g[n], g[d])
    && (forall m {:trigger g1[m]} :: m in g && m != n && m != d ==>
          g1[m] == if g[m].parent == d then g[m].(parent := n) else g[m])
  }

  lemma MergeFacts(g: Graph, g1: Graph, root: Node, n: Node, d: Node)
    requires WellFormed(g, root) && IsMerge(g, g1, n, d)
    ensures n != root && d != root && g[d].parent == n && g[d].kind == Static && g[n].kind != Any
    ensures g[n].parent in g1 && g[n].parent != n && g[n].parent != d
    ensures g[d].spell == g[n].spell + g[d].prefix && g[d].prefix != ""
  {
    assert NodeOk(g, root, n);
    assert ChildOk(g, n, g[n].staticChildren[0], Static);
    assert NodeOk(g, root, d);
  }

  lemma MergeUpperOk(g: Graph, g1: Graph, root: Node, n: Node, d: Node)
    requires WellFormed(g, root) && IsMerge(g, g1, n, d) && g[n].kind == Static
    ensures NodeOk(g1, root, n)
  {
    MergeFacts(g, g1, root, n, d);
    assert NodeOk(g, root, n) && NodeOk(g, root, d);
    var u := g[n].parent;
    assert g1[u].spell == g[u].spell && g1[u].staticChildren == g[u].staticChildren;
    assert g[u].spell + (g[n].prefix + g[d].prefix) == g[u].spell + g[n].prefix + g[d].prefix;
    assert UpOk(g1, root, n);
    forall x: Node | x in g && g[x].parent == d ensures x in g1 && g1[x] == g[x].(parent := n) {
      assert x != n && x != d;
    }
    forall i | 0 <= i < |g[d].staticChildren|
      ensures ChildOk(g1, n, g[d].staticChildren[i], Static) && g1[g[d].staticChildren[i]].lead == g[d].scLabels[i]
    {
      assert ChildOk(g, d, g[d].staticChildren[i], Static);
    }
    assert StaticsOk(g1, n);
  }

  lemma MergeOtherUp(g: Graph, g1: Graph, root: Node, n: Node, d: Node, m: Node)
    requires WellFormed(g, root) && IsMerge(g, g1, n, d) && m in g && m != n && m != d
    ensures UpOk(g1, root, m)
  {
    MergeFacts(g, g1, root, n, d);
    assert NodeOk(g, root, m);
    if m != root {
      var u := g[m].parent;
      assert IsChild(g, u, m);
      if u != d {
        assert u != n by {
          assert NodeOk(g, root, n);
        }
        assert g1[u].spell == g[u].spell && g1[u].staticChildren == g[u].staticChildren;
      }
    }
  }

  lemma MergeOtherDown(g: Graph, g1: Graph, root: Node, n: Node, d: Node, m: Node)
    requires WellFormed(g, root) && IsMerge(g, g1, n, d) && m in g && m != n && m != d && g[n].kind == Static
    ensures DownOk(g1, m)
  {
    MergeFacts(g, g1, root, n, d);
    assert NodeOk(g, root, m);
    forall x: Node | x in g && g[x].parent == m
      ensures x in g1 && g1[x].parent == m && g1[x].kind == g[x].kind && g1[x].lead == g[x].lead
    {
      assert x != d;
    }
    var sc := g[m].staticChildren;
    forall i | 0 <= i < |sc| ensures ChildOk(g1, m, sc[i], Static) && g1[sc[i]].lead == g[m].scLabels[i] {
      assert ChildOk(g, m, sc[i], Static);
    }
    assert g1[m].staticChildren == sc && g1[m].scLabels == g[m].scLabels;
    assert StaticsOk(g1, m);
  }

  lemma MergeWellFormed(g: Graph, g1: Graph, root: Node, n: Node, d: Node)
    requires WellFormed(g, root) && IsMerge(g, g1, n, d) && g[n].kind == Static
    ensures WellFormed(g1, root)
  {
    MergeFacts(g, g1, root, n, d);
    MergeUpperOk(g, g1, root, n, d);
    forall m | m in g1 ensures NodeOk(g1, root, m) {
      if m != n {
        MergeOtherOk(g, g1, root, n, d, m);
      }
    }
  }

  lemma MergeOtherOk(g: Graph, g1: Graph, root: Node, n: Node, d: Node, m: Node)
    requires WellFormed(g, root) && IsMerge(g, g1, n, d) && g[n].kind == Static && m in g1 && m != n
    requires d != root && d != n
    ensures NodeOk(g1, root, m)
  {
    MergeOtherUp(g, g1, root, n, d, m);
    MergeOtherDown(g, g1, root, n, d, m);
    assert NodeOk(g, root, m);
    assert g1[m].methods == g[m].methods && g1[m].spell == g[m].spell;
  }

  /** A merge takes away the place of a node that binds nothing. */
  lemma MergeNodes(g: Graph, g1: Graph, root: Node, entries: Entries, n: Node, d: Node)
    requires WellFormed(g, root) && Represents(g, entries) && IsMerge(g, g1, n, d)
    requires g[n].kind == Static && !IsBound(g[n])
    ensures WellFormed(g1, root) && Represents(g1, entries) && Spells(g1) <= Spells(g)
  {
    MergeWellFormed(g, g1, root, n, d);
    forall m | m in g1 ensures Agrees(g1, entries, m) {
      var o: Node := if m == n then d else m;
      assert Agrees(g, entries, o);
      assert g1[m].spell == g[o].spell && EntryOf(g1[m]) == EntryOf(g[o]);
    }
    forall s | s in entries ensures s in Spells(g1) {
      var m := Spelled(g, s);
      assert Agrees(g, entries, m) && Agrees(g, entries, n);
      assert m != n;
      assert g1[if m == d then n else m].spell == s;
    }
    forall s | s in Spells(g1) ensures s in Spells(g) {
      var m := Spelled(g1, s);
      assert g[if m == n then d else m].spell == s;
    }
  }

  // ---------------------------------------------------------------------------
  // The way to a path without marks.

  /** No not-found route is registered. */
  ghost predicate NoNotFound(entries: Entries) {
    forall s :: s in entries ==> ROUTE_NOT_FOUND !in entries[s].methods.bound
  }

  predicate IsBoundIn(entries: Entries, shape: string, verb: string) {
    shape in entries && verb in entries[shape].methods.bound
  }

  lemma HandlesIffBound(g: Graph, root: Node, entries: Entries, n: Node)
    requires WellFormed(g, root) && Represents(g, entries) && NoNotFound(entries) && n in g
    ensures g[n].isHandler <==> IsBound(g[n])
  {
    assert NodeOk(g, root, n) && Agrees(g, entries, n);
    if IsBound(g[n]) {
      var v :| v in g[n].methods.bound;
      assert v != ROUTE_NOT_FOUND;
    }
  }

  /** A node that spells no mark is static, and so are the nodes above it. */
  lemma PlainIsStatic(g: Graph, root: Node, n: Node)
    requires WellFormed(g, root) && n in g && IsPlain(g[n].spell)
    ensures g[n].kind == Static
    ensures n != root ==> g[n].parent in g && IsPlain(g[g[n].parent].spell)
  {
    assert NodeOk(g, root, n);
    if n != root {
      var b := g[g[n].parent].spell;
      assert g[n].spell[|b|] == g[n].prefix[0];
      assert forall i :: 0 <= i < |b| ==> b[i] == g[n].spell[i];
    }
  }

  /** The node that spells a bound path without marks handles it, under that very path. */
  lemma AtPlainPath(g: Graph, root: Node, entries: Entries, n: Node)
    requires WellFormed(g, root) && Represents(g, entries) && NoNotFound(entries)
    requires n in g && IsPlain(g[n].spell) && g[n].spell in entries
    ensures g[n].isHandler && g[n].originalPath == g[n].spell
  {
    assert NodeOk(g, root, n) && Agrees(g, entries, n);
    HandlesIffBound(g, root, entries, n);
    PlainShape(g[n].originalPath);
  }

  /** Above a bound path without marks, its next byte leads to a static child on the way to it. */
  lemma NextOnWay(g: Graph, root: Node, entries: Entries, n: Node, path: string)
    requires WellFormed(g, root) && Represents(g, entries) && n in g
    requires IsPlain(path) && path in entries && g[n].spell < path
    ensures |g[n].scLabels| == |g[n].staticChildren| && path[|g[n].spell|] in g[n].scLabels
    ensures var c := g[n].staticChildren[IndexOf(g[n].scLabels, path[|g[n].spell|])];
            c in g && g[c].kind == Static && g[c].spell <= path && g[c].spell == g[n].spell + g[c].prefix
  {
    var m := Spelled(g, path);
    var d := Descend(g, root, n, m);
    assert NodeOk(g, root, n) && NodeOk(g, root, d);
    assert g[d].kind == Static;
    var j :| 0 <= j < |g[n].staticChildren| && g[n].staticChildren[j] == d;
    assert ChildOk(g, n, g[n].staticChildren[j], Static);
    assert g[n].scLabels[j] == path[|g[n].spell|];
    assert IndexOf(g[n].scLabels, path[|g[n].spell|]) == j;
  }

  /** A node found under its path as registered is the one that spells it. */
  lemma FoundSpells(g: Graph, root: Node, entries: Entries, n: Node, path: string)
    requires WellFormed(g, root) && Represents(g, entries) && n in g && IsPlain(path)
    requires g[n].isHandler && g[n].originalPath == path
    ensures g[n].spell == path && path in entries && IsBound(g[n]) && entries[path].methods == g[n].methods
  {
    assert NodeOk(g, root, n) && Agrees(g, entries, n);
    var v :| v in g[n].methods.bound && v != ROUTE_NOT_FOUND;
    ShapeOfPlain(path);
  }

  /** The walk to a path stands at a static node on the way to it, of which `k` bytes lie above. */
  ghost predicate IsOnWay(g: Graph, n: Node, path: string, k: nat) {
    && n in g && g[n].kind == Static && g[n].spell <= path && k + |g[n].prefix| == |g[n].spell|
  }

  /** As long as the path is bound and has no mark, the walk is on the way to it. */
  ghost predicate KeepsWay(g: Graph, entries: Entries, n: Node?, path: string, k: nat) {
    IsPlain(path) && path in entries ==> n != null && IsOnWay(g, n, path, k)
  }

  ghost function Remaining(g: Graph, n: Node?): nat {
    if n !in g || Height(Spells(g)) < |g[n].spell| then 0 else 1 + Height(Spells(g)) - |g[n].spell|
  }

  lemma StartsOnWay(g: Graph, root: Node, entries: Entries, path: string)
    requires WellFormed(g, root) && Represents(g, entries)
    ensures KeepsWay(g, entries, root, path, 0)
  {
    assert NodeOk(g, root, root);
    if path in entries {
      var m := Spelled(g, path);
      AllUnderRoot(g, root, m);
      UnderSpells(g, root, root, m);
    }
  }

  /** By a byte that is no mark, a node leads to its static child of that label. */
  predicate LeadsTo(n: Cell, l: char, c: Node?) {
    !IsMark(l) && |n.scLabels| == |n.staticChildren| && l in n.scLabels ==> c == n.staticChildren[IndexOf(n.scLabels, l)]
  }

  /** The child of the kind that a byte of a path announces. */
  function NextOf(n: Cell, l: char): Node?
    requires |n.scLabels| == |n.staticChildren|
  {
    if l == PARAM_LABEL then n.paramChild
    else if l == ANY_LABEL then n.anyChild
    else if l in n.scLabels then n.staticChildren[IndexOf(n.scLabels, l)]
    else null
  }

  lemma NextIsCloser(g: Graph, root: Node, n: Node, l: char)
    requires WellFormed(g, root) && n in g
    ensures |g[n].scLabels| == |g[n].staticChildren| && LeadsTo(g[n], l, NextOf(g[n], l))
    ensures NextOf(g[n], l) != null ==> NextOf(g[n], l) in g
    ensures Remaining(g, NextOf(g[n], l)) < Remaining(g, n)
  {
    assert NodeOk(g, root, n) && g[n].spell in Spells(g);
    var c := NextOf(g[n], l);
    if c != null {
      assert c in g && g[c].parent == n by {
        if l != PARAM_LABEL && l != ANY_LABEL {
          assert ChildOk(g, n, g[n].staticChildren[IndexOf(g[n].scLabels, l)], Static);
        }
      }
      assert NodeOk(g, root, c) && g[c].spell in Spells(g);
    }
  }

  /** A node on the way that is not the one looked for is short of the end. */
  lemma NotYet(g: Graph, root: Node, entries: Entries, n: Node, path: string, k: nat)
    requires WellFormed(g, root) && Represents(g, entries) && NoNotFound(entries) && n in g
    requires KeepsWay(g, entries, n, path, k)
    requires !(g[n].originalPath == path && g[n].isHandler)
    ensures IsPlain(path) && path in entries ==> g[n].kind == Static && k + |g[n].prefix| == |g[n].spell| < |path|
  {
    if IsPlain(path) && path in entries && g[n].spell == path {
      AtPlainPath(g, root, entries, n);
    }
  }

  /** Short of its end the walk goes on to the next node on the way. */
  lemma GoesOnWay(g: Graph, root: Node, entries: Entries, n: Node, path: string, k: nat, k': nat, c: Node?)
    requires WellFormed(g, root) && Represents(g, entries) && n in g
    requires KeepsWay(g, entries, n, path, k) && k' < |path| && LeadsTo(g[n], path[k'], c)
    requires IsPlain(path) && path in entries ==> k' == k + |g[n].prefix|
    ensures KeepsWay(g, entries, c, path, k')
  {
    if IsPlain(path) && path in entries {
      NextOnWay(g, root, entries, n, path);
    }
  }
}
