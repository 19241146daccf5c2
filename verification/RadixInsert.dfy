/**
 The changes that an insertion makes to the tree, as functions from graph to graph. Each keeps the
 tree well formed, and each says which shapes gain a place and which binding changes.
 */
module RadixInsert {
  import opened Wrappers
  import opened RoutePaths
  import opened RouteTable
  import opened RadixTree

  type Entries = map<string, Entry>

  /** Registering one route changes the entry of its shape and nothing else. */
  function Bind(entries: Entries, shape: string, verb: string, rm: RouteMethod): Entries {
    var m := if shape in entries then entries[shape].methods else NoMethods;
    entries[shape := Entry(m.Set(verb, Some(rm)), rm.path)]
  }

  function BindIf(entries: Entries, shape: string, verb: string, rm: Option<RouteMethod>): Entries {
    if rm.Some? then Bind(entries, shape, verb, rm.value) else entries
  }

  /** The route was registered under a path of this shape. */
  predicate RouteFits(shape: string, rm: RouteMethod) {
    |rm.params| == CountMarks(shape) && Shape(rm.path) == shape
  }

  function BindCell(c: Cell, verb: string, rm: RouteMethod): Cell {
    var m := c.methods.Set(verb, Some(rm));
    c.(methods := m, isHandler := exists v :: v in m.bound && v != ROUTE_NOT_FOUND,
       paramsCount := |rm.params|, originalPath := rm.path)
  }

  function BindCellIf(c: Cell, verb: string, rm: Option<RouteMethod>): Cell {
    if rm.Some? then BindCell(c, verb, rm.value) else c
  }

  lemma BindCellOk(c: Cell, verb: string, rm: RouteMethod)
    requires CellOk(c) && BindingOk(c) && RouteFits(c.spell, rm)
    ensures CellOk(BindCell(c, verb, rm)) && BindingOk(BindCell(c, verb, rm)) && IsBound(BindCell(c, verb, rm))
  {
    assert verb in BindCell(c, verb, rm).methods.bound;
  }

  /** A cell may change what it binds without touching the links around it. */
  predicate SameLinks(a: Cell, b: Cell) {
    && a.parent == b.parent && a.paramChild == b.paramChild && a.anyChild == b.anyChild
    && a.prefix == b.prefix && a.staticChildren == b.staticChildren && a.scLabels == b.scLabels
    && a.kind == b.kind && a.lead == b.lead && a.spell == b.spell
  }

  lemma UpdateKeepsLinks(g: Graph, root: Node, n: Node, c: Cell)
    requires WellFormed(g, root) && n in g
    requires SameLinks(g[n], c) && CellOk(c) && BindingOk(c)
    ensures WellFormed(g[n := c], root)
    ensures Spells(g[n := c]) == Spells(g)
  {
    var g1 := g[n := c];
    forall m | m in g1 ensures NodeOk(g1, root, m) {
      UpdateKeepsNode(g, root, n, c, m);
    }
    assert forall m :: m in g ==> g1[m].spell == g[m].spell;
    SameSpells(g, g1);
  }

  lemma UpdateKeepsNode(g: Graph, root: Node, n: Node, c: Cell, m: Node)
    requires WellFormed(g, root) && n in g && m in g
    requires SameLinks(g[n], c) && CellOk(c) && BindingOk(c)
    ensures NodeOk(g[n := c], root, m)
  {
    var g1 := g[n := c];
    assert NodeOk(g, root, m);
    assert UpOk(g1, root, m);
    UpdateKeepsDown(g, n, c, m);
  }

  lemma UpdateKeepsDown(g: Graph, n: Node, c: Cell, m: Node)
    requires n in g && m in g && SameLinks(g[n], c) && DownOk(g, m)
    ensures DownOk(g[n := c], m)
  {
    var g1 := g[n := c];
    forall i | 0 <= i < |g[m].staticChildren|
      ensures ChildOk(g1, m, g1[m].staticChildren[i], Static) && g1[g1[m].staticChildren[i]].lead == g1[m].scLabels[i]
    {
      assert ChildOk(g, m, g[m].staticChildren[i], Static);
    }
    assert StaticsOk(g1, m);
  }

  lemma SameSpells(g: Graph, g1: Graph)
    requires g.Keys == g1.Keys && forall m :: m in g ==> g1[m].spell == g[m].spell
    ensures Spells(g1) == Spells(g)
  {
    forall s | s in Spells(g) ensures s in Spells(g1) {
      var m := Spelled(g, s);
      assert g1[m].spell == s;
    }
    forall s | s in Spells(g1) ensures s in Spells(g) {
      var m := Spelled(g1, s);
      assert g[m].spell == s;
    }
  }

  /** Setting a handler at an existing node. */
  lemma BindAtNode(g: Graph, root: Node, entries: Entries, n: Node, verb: string, rm: RouteMethod)
    requires WellFormed(g, root) && Represents(g, entries) && n in g && RouteFits(g[n].spell, rm)
    ensures var g1 := g[n := BindCell(g[n], verb, rm)];
            WellFormed(g1, root) && Spells(g1) == Spells(g) && Represents(g1, Bind(entries, g[n].spell, verb, rm))
  {
    assert NodeOk(g, root, n);
    var c := BindCell(g[n], verb, rm);
    BindCellOk(g[n], verb, rm);
    UpdateKeepsLinks(g, root, n, c);
    var g1, e1 := g[n := c], Bind(entries, g[n].spell, verb, rm);
    forall m | m in g1
      ensures Agrees(g1, e1, m)
    {
      assert Agrees(g, entries, m) && Agrees(g, entries, n);
      if m != n && g[m].spell == g[n].spell {
        SpellsDiffer(g, root, m, n);
      }
    }
    assert g[n].spell in Spells(g);
  }

  // ---------------------------------------------------------------------------
  // Splitting a node.

  ghost function LowerHalf(c: Cell, k: nat, n: Node): Cell
    requires 0 < k < |c.prefix|
  {
    c.(parent := n, prefix := c.prefix[k..], lead := c.prefix[k])
  }

  /** `g1` is `g` after splitting `n` at `k`, with `low` as the new node. */
  ghost predicate IsSplit(g: Graph, g1: Graph, n: Node, k: nat, low: Node) {
    && n in g && low !in g && 0 < k < |g[n].prefix| <= |g[n].spell|
    && g1.Keys == g.Keys + {low}
    && g1[low] == LowerHalf(g[n], k, n)
    && g1[n] == UpperHalf(g[n], k, low)
    && (forall m {:trigger g1[m]} :: m in g && m != n ==>
          g1[m] == if g[m].parent == n then g[m].(parent := low) else g[m])
  }

  lemma SplitUpperOk(g: Graph, g1: Graph, root: Node, n: Node, k: nat, low: Node)
    requires WellFormed(g, root) && IsSplit(g, g1, n, k, low)
    ensures g[n].kind == Static && g1[n].spell + g[n].prefix[k..] == g[n].spell
    ensures NodeOk(g1, root, n)
  {
    assert NodeOk(g, root, n);
    var c := g[n];
    assert c.prefix[..k] + c.prefix[k..] == c.prefix;
    if n != root {
      var u := c.parent;
      assert u != n;
      assert g1[u].spell == g[u].spell && g1[u].staticChildren == g[u].staticChildren;
      assert c.spell[..|c.spell| - |c.prefix| + k] == g1[u].spell + c.prefix[..k];
    } else {
      assert c.spell[..k] == c.prefix[..k];
    }
    assert UpOk(g1, root, n);
    assert StaticsOk(g1, n);
  }

  lemma SplitLowerOk(g: Graph, g1: Graph, root: Node, n: Node, k: nat, low: Node)
    requires WellFormed(g, root) && IsSplit(g, g1, n, k, low)
    requires g[n].kind == Static && g1[n].spell + g[n].prefix[k..] == g[n].spell
    ensures NodeOk(g1, root, low)
  {
    assert NodeOk(g, root, n);
    var c := g[n];
    assert UpOk(g1, root, low);
    forall d: Node | d in g && g[d].parent == n ensures g1[d] == g[d].(parent := low) {
      assert d != n by {
        assert NodeOk(g, root, n);
      }
    }
    forall i | 0 <= i < |c.staticChildren|
      ensures ChildOk(g1, low, c.staticChildren[i], Static) && g1[c.staticChildren[i]].lead == c.scLabels[i]
    {
      assert ChildOk(g, n, c.staticChildren[i], Static);
    }
    assert StaticsOk(g1, low);
    assert DownOk(g1, low);
  }

  lemma SplitOtherUp(g: Graph, g1: Graph, root: Node, n: Node, k: nat, low: Node, m: Node)
    requires WellFormed(g, root) && IsSplit(g, g1, n, k, low) && m in g && m != n
    ensures UpOk(g1, root, m)
  {
    assert NodeOk(g, root, m);
    var c, c1 := g[m], g1[m];
    assert c1 == if c.parent == n then c.(parent := low) else c;
    if m != root && c.parent != n {
      assert g1[c.parent].spell == g[c.parent].spell;
      assert g1[c.parent].staticChildren == g[c.parent].staticChildren;
    }
  }

  lemma SplitOtherDown(g: Graph, g1: Graph, root: Node, n: Node, k: nat, low: Node, m: Node)
    requires WellFormed(g, root) && IsSplit(g, g1, n, k, low) && m in g && m != n
    requires g[n].kind == Static
    ensures DownOk(g1, m)
  {
    assert NodeOk(g, root, m) && NodeOk(g, root, n);
    var c := g[m];
    forall d: Node | d in g && g[d].parent == m
      ensures d in g1 && g1[d].parent == m && g1[d].kind == g[d].kind && g1[d].lead == g[d].lead
    {
      assert NodeOk(g, root, d);
    }
    forall i | 0 <= i < |c.staticChildren|
      ensures ChildOk(g1, m, c.staticChildren[i], Static) && g1[c.staticChildren[i]].lead == c.scLabels[i]
    {
      assert ChildOk(g, m, c.staticChildren[i], Static);
    }
    assert g1[m].staticChildren == c.staticChildren && g1[m].scLabels == c.scLabels;
    assert StaticsOk(g1, m);
  }

  lemma SplitWellFormed(g: Graph, g1: Graph, root: Node, n: Node, k: nat, low: Node)
    requires WellFormed(g, root) && IsSplit(g, g1, n, k, low)
    ensures g[n].kind == Static
    ensures WellFormed(g1, root)
  {
    SplitUpperOk(g, g1, root, n, k, low);
    SplitLowerOk(g, g1, root, n, k, low);
    forall m | m in g1 ensures NodeOk(g1, root, m) {
      if m != n && m != low {
        SplitOtherUp(g, g1, root, n, k, low, m);
        SplitOtherDown(g, g1, root, n, k, low, m);
        assert NodeOk(g, root, m);
        assert g1[m].methods == g[m].methods && g1[m].spell == g[m].spell;
      }
    }
  }

  /** A split gives the middle of the prefix a place of its own and changes no binding. */
  lemma SplitNode(g: Graph, g1: Graph, root: Node, entries: Entries, n: Node, k: nat, low: Node)
    requires WellFormed(g, root) && Represents(g, entries) && IsSplit(g, g1, n, k, low)
    ensures WellFormed(g1, root) && Represents(g1, entries) && Spells(g1) == Spells(g) + {g1[n].spell}
  {
    SplitWellFormed(g, g1, root, n, k, low);
    SplitSpells(g, g1, n, k, low);
    MidIsNew(g, root, n, k, g1[n].spell);
    SplitRepresents(g, g1, entries, n, k, low);
  }

  lemma SplitRepresents(g: Graph, g1: Graph, entries: Entries, n: Node, k: nat, low: Node)
    requires IsSplit(g, g1, n, k, low) && Represents(g, entries)
    requires g1[n].spell !in Spells(g) && Spells(g1) == Spells(g) + {g1[n].spell}
    ensures Represents(g1, entries)
  {
    forall m | m in g1
      ensures Agrees(g1, entries, m)
    {
      if m == low {
        assert Agrees(g, entries, n);
        assert g1[low].spell == g[n].spell && EntryOf(g1[low]) == EntryOf(g[n]);
      } else if m != n {
        assert Agrees(g, entries, m);
        assert g1[m].spell == g[m].spell && EntryOf(g1[m]) == EntryOf(g[m]);
      }
    }
  }

  lemma SplitSpells(g: Graph, g1: Graph, n: Node, k: nat, low: Node)
    requires IsSplit(g, g1, n, k, low)
    ensures Spells(g1) == Spells(g) + {g1[n].spell}
  {
    forall s | s in Spells(g) ensures s in Spells(g1) {
      var m := Spelled(g, s);
      assert m != n ==> g1[m].spell == s;
      assert m == n ==> g1[low].spell == s;
    }
    forall s | s in Spells(g1) ensures s in Spells(g) + {g1[n].spell} {
      var m := Spelled(g1, s);
      assert m == low ==> g[n].spell == s;
      assert m != low && m != n ==> g[m].spell == s;
    }
  }

  /** No node stops in the middle of another node's prefix. */
  lemma MidIsNew(g: Graph, root: Node, n: Node, k: nat, mid: string)
    requires WellFormed(g, root) && n in g && 0 < k < |g[n].prefix| <= |g[n].spell|
    requires mid == g[n].spell[..|g[n].spell| - |g[n].prefix| + k]
    ensures mid !in Spells(g)
  {
    assert NodeOk(g, root, n);
    if mid in Spells(g) {
      var m := Spelled(g, mid);
      PrefixIsAbove(g, root, m, n);
      if n == root {
        AllUnderRoot(g, root, m);
        UnderSpells(g, root, root, m);
      } else {
        var u := g[n].parent;
        assert Under(g, root, m, u);
        UnderSpells(g, root, m, u);
      }
    }
  }

  // ---------------------------------------------------------------------------
  // Adding a child.

  ghost function Linked(c: Cell, low: Node, lead: char, kind: Kind): Cell {
    match kind
    case Static => c.(staticChildren := c.staticChildren + [low], scLabels := c.scLabels + [lead], isLeaf := false)
    case Param => c.(paramChild := low, isLeaf := false)
    case Any => c.(anyChild := low, isLeaf := false)
  }

  /** `g1` is `g` with `low`, holding `c`, linked under `n`. */
  ghost predicate IsAddChild(g: Graph, g1: Graph, n: Node, low: Node, c: Cell) {
    && n in g && low !in g
    && g1.Keys == g.Keys + {low}
    && g1[low] == c
    && g1[n] == Linked(g[n], low, c.lead, c.kind)
    && (forall m {:trigger g1[m]} :: m in g && m != n ==> g1[m] == g[m])
  }

  /** `n` has no child yet in the direction of the new one. */
  ghost predicate HasRoom(c: Cell, lead: char, kind: Kind) {
    && c.kind != Any
    && match kind
       case Static => lead !in c.scLabels
       case Param => c.paramChild == null
       case Any => c.anyChild == null
  }

  /** What a new node must hold before it is linked under `n`. */
  ghost predicate NewChildOk(g: Graph, n: Node, c: Cell)
    requires n in g
  {
    && c.parent == n && c.spell == g[n].spell + c.prefix
    && CellOk(c) && BindingOk(c) && HasNoChildren(c) && |c.scLabels| == 0
    && HasRoom(g[n], c.lead, c.kind)
  }

  lemma AddChildUp(g: Graph, g1: Graph, root: Node, n: Node, low: Node, c: Cell, m: Node)
    requires WellFormed(g, root) && IsAddChild(g, g1, n, low, c) && m in g
    requires HasRoom(g[n], c.lead, c.kind)
    ensures UpOk(g1, root, m)
  {
    assert NodeOk(g, root, m);
    var u := g[m].parent;
    if m != root {
      assert g1[u].spell == g[u].spell;
      assert IsChild(g, u, m);
      assert g[m].kind == Static ==> m in g1[u].staticChildren;
    }
  }

  lemma AddChildKeepsChild(g: Graph, g1: Graph, n: Node, low: Node, c: Cell, m: Node, d: Node?, kind: Kind)
    requires IsAddChild(g, g1, n, low, c) && m in g && ChildOk(g, m, d, kind)
    ensures ChildOk(g1, m, d, kind) && (d != null ==> g1[d].lead == g[d].lead)
  {
    if d != null && d != n {
      assert g1[d] == g[d];
    }
  }

  lemma AddChildStatics(g: Graph, g1: Graph, n: Node, low: Node, c: Cell, m: Node)
    requires IsAddChild(g, g1, n, low, c) && m in g && StaticsOk(g, m)
    requires c.parent == n && HasRoom(g[n], c.lead, c.kind)
    ensures StaticsOk(g1, m)
  {
    var sc := g[m].staticChildren;
    forall i | 0 <= i < |sc| ensures ChildOk(g1, m, sc[i], Static) && g1[sc[i]].lead == g[m].scLabels[i] {
      AddChildKeepsChild(g, g1, n, low, c, m, sc[i], Static);
    }
    if m == n && c.kind == Static {
      assert g1[n].staticChildren == sc + [low] && g1[n].scLabels == g[n].scLabels + [c.lead];
    } else {
      assert g1[m].staticChildren == sc && g1[m].scLabels == g[m].scLabels;
    }
  }

  lemma AddChildDown(g: Graph, g1: Graph, root: Node, n: Node, low: Node, c: Cell, m: Node)
    requires WellFormed(g, root) && IsAddChild(g, g1, n, low, c) && NewChildOk(g, n, c) && m in g
    ensures DownOk(g1, m)
  {
    assert NodeOk(g, root, m);
    AddChildStatics(g, g1, n, low, c, m);
    AddChildKeepsChild(g, g1, n, low, c, m, g[m].paramChild, Param);
    AddChildKeepsChild(g, g1, n, low, c, m, g[m].anyChild, Any);
  }

  lemma AddChildWellFormed(g: Graph, g1: Graph, root: Node, n: Node, low: Node, c: Cell)
    requires WellFormed(g, root) && IsAddChild(g, g1, n, low, c) && NewChildOk(g, n, c)
    ensures WellFormed(g1, root)
  {
    forall m | m in g1 ensures NodeOk(g1, root, m) {
      if m == low {
        assert UpOk(g1, root, low);
        assert StaticsOk(g1, low);
      } else {
        assert NodeOk(g, root, m);
        AddChildUp(g, g1, root, n, low, c, m);
        AddChildDown(g, g1, root, n, low, c, m);
        assert g1[m].methods == g[m].methods && g1[m].spell == g[m].spell;
      }
    }
  }

  /** A new child gives its shape a place, and a binding if it carries one; nothing else changes. */
  lemma AddChildNode(g: Graph, g1: Graph, root: Node, entries: Entries, n: Node, low: Node, c: Cell)
    requires WellFormed(g, root) && Represents(g, entries) && IsAddChild(g, g1, n, low, c) && NewChildOk(g, n, c)
    ensures WellFormed(g1, root) && Spells(g1) == Spells(g) + {c.spell}
    ensures Represents(g1, if IsBound(c) then entries[c.spell := EntryOf(c)] else entries)
    ensures c.spell !in entries
  {
    AddChildWellFormed(g, g1, root, n, low, c);
    AddChildSpells(g, g1, n, low, c);
    ChildIsNew(g, root, n, c);
    forall m | m in g ensures g1[m].spell == g[m].spell && EntryOf(g1[m]) == EntryOf(g[m]) && g[m].spell != c.spell {
      assert g[m].spell in Spells(g);
    }
    var e1 := if IsBound(c) then entries[c.spell := EntryOf(c)] else entries;
    forall m | m in g1 ensures Agrees(g1, e1, m) {
      if m != low {
        assert Agrees(g, entries, m);
      }
    }
  }

  lemma AddChildSpells(g: Graph, g1: Graph, n: Node, low: Node, c: Cell)
    requires IsAddChild(g, g1, n, low, c)
    ensures Spells(g1) == Spells(g) + {c.spell}
  {
    assert g1[low].spell == c.spell;
    forall s | s in Spells(g) ensures s in Spells(g1) {
      var m := Spelled(g, s);
      assert g1[m].spell == s;
    }
    forall s | s in Spells(g1) ensures s in Spells(g) + {c.spell} {
      var m := Spelled(g1, s);
      assert m != low ==> g[m].spell == s;
    }
  }

  lemma ChildIsNew(g: Graph, root: Node, n: Node, c: Cell)
    requires WellFormed(g, root) && n in g && c.spell == g[n].spell + c.prefix && CellOk(c)
    requires HasRoom(g[n], c.lead, c.kind)
    ensures c.spell !in Spells(g)
  {
    if c.spell in Spells(g) {
      NoWayToward(g, root, n, c.spell, c.lead, c.kind);
    }
  }

  /** Where there is room for a child, no node spells anything in its direction. */
  lemma NoWayToward(g: Graph, root: Node, n: Node, s: string, lead: char, kind: Kind)
    requires WellFormed(g, root) && n in g && HasRoom(g[n], lead, kind)
    requires g[n].spell < s && s[|g[n].spell|] == lead
    requires kind == (if lead == PARAM_LABEL then Param else if lead == ANY_LABEL then Any else Static)
    ensures s !in Spells(g)
  {
    if s in Spells(g) {
      var m := Spelled(g, s);
      assert s[..|g[n].spell|] + [lead] <= s;
      assert Live(Spells(g), g[n].spell + [lead]);
      assert NodeOk(g, root, n);
      var d := LiveChild(g, root, n, lead);
    }
  }

  // ---------------------------------------------------------------------------
  // Where an insertion can arrive.

  /**
   What the registration of a path asks of each insertion: the part up to `head`, which ends in the
   last parameter before the new piece, has its node already, and the rest is one piece of kind `t`.
   */
  ghost predicate CanInsert(skeleton: set<string>, t: Kind, path: string, rm: Option<RouteMethod>, head: string) {
    && path != "" && path[0] == '/'
    && head <= path && (head != "" ==> head in skeleton && head[|head| - 1] != ANY_LABEL)
    && (rm.Some? ==> RouteFits(path, rm.value))
    && match t
       case Static => IsPlain(path[|head|..])
       case Param => head != "" && path == head + [PARAM_LABEL]
       case Any => head != "" && path == head + [ANY_LABEL] && rm.Some?
  }

  /** One piece of a path, of the given kind; an any piece always carries a handler. */
  predicate PieceOk(t: Kind, piece: string, rm: Option<RouteMethod>) {
    match t
    case Static => IsPlain(piece)
    case Param => piece == [PARAM_LABEL]
    case Any => piece == [ANY_LABEL] && rm.Some?
  }

  /** A new cell for the last piece of a path. */
  function NewCell(parent: Node, t: Kind, prefix: string, spell: string, verb: string, rm: Option<RouteMethod>): Cell
    requires prefix != ""
  {
    BindCellIf(Cell(parent, NoMethods, null, null, prefix, "", [], [], 0, t, prefix[0], true, false, spell), verb, rm)
  }

  /** No child of the cell leads towards `c`. */
  predicate NoChildTowards(cell: Cell, c: char) {
    c !in cell.scLabels && (c == PARAM_LABEL ==> cell.paramChild == null) && (c == ANY_LABEL ==> cell.anyChild == null)
  }

  lemma HeadIsBehind(g: Graph, root: Node, n: Node, path: string, head: string)
    requires WellFormed(g, root) && n in g && g[n].spell < path
    requires head <= path && (head != "" ==> head in Spells(g))
    requires NoChildTowards(g[n], path[|g[n].spell|])
    ensures |head| <= |g[n].spell|
  {
    var k := |g[n].spell|;
    if k < |head| {
      assert NodeOk(g, root, n);
      assert g[n].spell + [path[k]] <= head;
      var d := LiveChild(g, root, n, path[k]);
    }
  }

  /** Where no child leads on, what remains of the path is its last piece, and there is room for it. */
  lemma RoomForRest(g: Graph, root: Node, t: Kind, path: string, rm: Option<RouteMethod>, head: string, n: Node)
    requires WellFormed(g, root) && n in g && g[n].spell < path
    requires CanInsert(Spells(g), t, path, rm, head)
    requires NoChildTowards(g[n], path[|g[n].spell|])
    ensures HasRoom(g[n], path[|g[n].spell|], t)
    ensures PieceOk(t, path[|g[n].spell|..], rm)
  {
    HeadIsBehind(g, root, n, path, head);
    assert NodeOk(g, root, n);
    if t == Static {
      PlainSuffix(path, |head|, |g[n].spell|);
    }
  }

  /** Only a static piece can part from a prefix in its middle. */
  lemma RoomAfterSplit(g: Graph, root: Node, t: Kind, path: string, rm: Option<RouteMethod>, head: string,
                       n: Node, b: string, k: nat)
    requires WellFormed(g, root) && n in g && g[n].spell == b + g[n].prefix && 0 < k < |g[n].prefix|
    requires CanInsert(Spells(g), t, path, rm, head)
    requires b + g[n].prefix[..k] <= path
    requires |b| + k < |path| ==> path[|b| + k] != g[n].prefix[k]
    ensures t == Static && g[n].kind == Static && IsPlain(path[|b| + k..])
  {
    assert NodeOk(g, root, n);
    var p := g[n].prefix;
    assert path[|b|] == (b + p[..k])[|b|] == p[0];
    HeadIsAbove(g, root, t, path, rm, head, n, b, k);
    assert !IsMark(p[0]);
    if t == Static {
      PlainSuffix(path, |head|, |b| + k);
    }
  }

  /** The head of the piece has a node, and so it does not end below a node that the piece parts from. */
  lemma HeadIsAbove(g: Graph, root: Node, t: Kind, path: string, rm: Option<RouteMethod>, head: string,
                    n: Node, b: string, k: nat)
    requires WellFormed(g, root) && n in g && g[n].spell == b + g[n].prefix && 0 < k < |g[n].prefix|
    requires CanInsert(Spells(g), t, path, rm, head)
    requires b + g[n].prefix[..k] <= path
    requires |b| + k < |path| ==> path[|b| + k] != g[n].prefix[k]
    ensures |head| <= |b|
  {
    assert NodeOk(g, root, n);
    var p := g[n].prefix;
    assert path[|b|] == (b + p[..k])[|b|] == p[0];
    if |b| < |head| {
      var m := Spelled(g, head);
      assert b <= head by {
        assert b <= path;
      }
      assert head[|b|] == p[0];
      if n == root {
        AllUnderRoot(g, root, m);
        UnderSpells(g, root, root, m);
      } else {
        assert g[g[n].parent].spell == b by {
          assert g[n].spell[..|b|] == b;
        }
        var d := Descend(g, root, g[n].parent, m);
        SiblingsDiffer(g, root, n, d);
      }
    }
  }

  lemma NewCellOk(g: Graph, n: Node, t: Kind, prefix: string, path: string, verb: string, rm: Option<RouteMethod>)
    requires n in g && prefix != "" && path == g[n].spell + prefix && HasRoom(g[n], prefix[0], t)
    requires rm.Some? ==> RouteFits(path, rm.value)
    requires PieceOk(t, prefix, rm)
    ensures NewChildOk(g, n, NewCell(n, t, prefix, path, verb, rm))
    ensures IsBound(NewCell(n, t, prefix, path, verb, rm)) <==> rm.Some?
    ensures rm.Some? ==> EntryOf(NewCell(n, t, prefix, path, verb, rm)) == Entry(NoMethods.Set(verb, rm), rm.value.path)
  {
    var c := NewCell(n, t, prefix, path, verb, rm);
    assert rm.Some? ==> verb in c.methods.bound;
  }

  function RootCell(path: string, verb: string, rm: Option<RouteMethod>): Cell
    requires path != ""
  {
    BindCellIf(Cell(null, NoMethods, null, null, path, "", [], [], 0, Static, path[0], true, false, path), verb, rm)
  }

  lemma RootCellOk(g: Graph, root: Node, path: string, verb: string, rm: Option<RouteMethod>)
    requires path != "" && IsPlain(path) && (rm.Some? ==> RouteFits(path, rm.value))
    requires g.Keys == {root} && g[root] == RootCell(path, verb, rm)
    ensures WellFormed(g, root) && Spells(g) == {path} && Represents(g, BindIf(map[], path, verb, rm))
  {
    assert rm.Some? ==> verb in g[root].methods.bound;
    assert NodeOk(g, root, root);
  }

  /** Linking the last piece of a path under the node before it registers the path. */
  lemma InsertedChild(g: Graph, g1: Graph, root: Node, entries: Entries, n: Node, low: Node,
                      t: Kind, rest: string, path: string, verb: string, rm: Option<RouteMethod>)
    requires WellFormed(g, root) && Represents(g, entries) && n in g && rest != "" && path == g[n].spell + rest
    requires IsAddChild(g, g1, n, low, NewCell(n, t, rest, path, verb, rm))
    requires HasRoom(g[n], rest[0], t) && (rm.Some? ==> RouteFits(path, rm.value))
    requires PieceOk(t, rest, rm)
    ensures WellFormed(g1, root) && Represents(g1, BindIf(entries, path, verb, rm)) && Spells(g1) == Spells(g) + {path}
    ensures g1[root].prefix == g[root].prefix
  {
    NewCellOk(g, n, t, rest, path, verb, rm);
    var c := NewCell(n, t, rest, path, verb, rm);
    AddChildNode(g, g1, root, entries, n, low, c);
    assert c.spell == path;
    assert (if IsBound(c) then entries[c.spell := EntryOf(c)] else entries) == BindIf(entries, path, verb, rm);
  }

  lemma SplitNodeEffect(g: Graph, g1: Graph, root: Node, entries: Entries, n: Node, k: nat, low: Node, b: string)
    requires WellFormed(g, root) && Represents(g, entries) && IsSplit(g, g1, n, k, low)
    requires g[n].spell == b + g[n].prefix
    ensures WellFormed(g1, root) && Represents(g1, entries) && Spells(g1) == Spells(g) + {b + g[n].prefix[..k]}
  {
    SplitNode(g, g1, root, entries, n, k, low);
    UpperAfterSplit(g, g1, n, k, low, b);
  }

  lemma UpperAfterSplit(g: Graph, g1: Graph, n: Node, k: nat, low: Node, b: string)
    requires IsSplit(g, g1, n, k, low) && g[n].spell == b + g[n].prefix
    ensures g1[n].spell == b + g[n].prefix[..k] && g1[n].scLabels == [g[n].prefix[k]] && g1[n].kind == Static
    ensures g1[n].paramChild == null && g1[n].anyChild == null && !g1[n].isLeaf
  {
    assert (b + g[n].prefix)[..|b| + k] == b + g[n].prefix[..k];
  }

  lemma RootAfterSplit(g: Graph, g1: Graph, root: Node, n: Node, k: nat, low: Node)
    requires IsSplit(g, g1, n, k, low) && root in g && g[root].prefix != ""
    ensures root in g1 && g1[root].prefix != "" && g1[root].prefix[0] == g[root].prefix[0]
  {
    assert root != n ==> g1[root].prefix == g[root].prefix;
  }

  /** At a mark of the path, the static piece before it and then the mark itself can be inserted. */
  lemma MarkCanBeInserted(skeleton: set<string>, orig: string, path: string, i: nat, names: seq<string>, head: string,
                          t: Kind, rm: Option<RouteMethod>)
    requires PathRead(orig, path, i, names, head) && 0 < i < |path| && (head != "" ==> head in skeleton)
    requires t == if path[i] == PARAM_LABEL then Param else Any
    requires IsMark(path[i]) && (t == Any ==> rm.Some?) && (rm.Some? ==> RouteFits(path[..i + 1], rm.value))
    ensures CanInsert(skeleton, Static, path[..i], None, head)
    ensures CanInsert(skeleton + {path[..i]}, t, path[..i + 1], rm, path[..i])
  {
    assert path[..i][|head|..] == path[|head|..i];
    assert path[..i + 1] == path[..i] + [path[i]];
    assert path[..i][i - 1] == path[i - 1] == path[|head|..i][i - 1 - |head|];
  }

  /** A path without a trailing mark ends in one static piece. */
  lemma EndCanBeInserted(skeleton: set<string>, orig: string, path: string, names: seq<string>, head: string,
                         rm: RouteMethod)
    requires PathRead(orig, path, |path|, names, head) && (head != "" ==> head in skeleton)
    requires rm.params == names && rm.path == orig
    ensures CanInsert(skeleton, Static, path, Some(rm), head) && Shape(orig) == path && Names(orig) == names
  {
    assert path[|head|..|path|] == path[|head|..];
    assert path[..|path|] == path && path[|path|..] == "" && path + "" == path && names + [] == names;
    NamesMatchShape(orig);
  }
}
