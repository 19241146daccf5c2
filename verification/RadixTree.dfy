/**
 The compressed prefix tree of the router. A `Node` is updated in place; a `Cell` is what a node
 holds at one moment, and a `Graph` is a snapshot of a set of nodes. The lemmas are about graphs.
 */
module RadixTree {
  import opened Wrappers
  import opened RoutePaths
  import opened RouteTable

  datatype Kind = Static | Param | Any

  datatype Cell = Cell(
    parent: Node?,
    methods: MethodTable,
    paramChild: Node?,
    anyChild: Node?,
    prefix: string,
    originalPath: string,
    staticChildren: seq<Node>,
    scLabels: seq<char>,
    paramsCount: nat,
    kind: Kind,
    lead: char,
    isLeaf: bool,
    isHandler: bool,
    spell: string)

  type Graph = map<Node, Cell>

  /** The child that a byte leads to: a static one first, then the parameter or any child of that label. */
  function ChildTowards(c: Cell, l: char): Node?
    requires |c.scLabels| == |c.staticChildren|
  {
    if l in c.scLabels then c.staticChildren[IndexOf(c.scLabels, l)]
    else if l == PARAM_LABEL then c.paramChild
    else if l == ANY_LABEL then c.anyChild
    else null
  }

  /** The upper half keeps the place of the node; the lower half, a new node, takes over all that the node held. */
  function UpperHalf(c: Cell, k: nat, low: Node): Cell
    requires 0 < k < |c.prefix| <= |c.spell|
  {
    Cell(c.parent, NoMethods, null, null, c.prefix[..k], "", [low], [c.prefix[k]], 0, Static, c.prefix[0],
         false, false, c.spell[..|c.spell| - |c.prefix| + k])
  }

  function Without<T>(s: seq<T>, i: nat): (r: seq<T>)
    ensures i < |s| ==> |r| == |s| - 1
  {
    if i < |s| then s[..i] + s[i + 1..] else s
  }

  /** The node takes over all that its only child holds, under the joined prefix. */
  function Merged(c: Cell, d: Cell): Cell {
    Cell(c.parent, d.methods, d.paramChild, d.anyChild, c.prefix + d.prefix, d.originalPath, d.staticChildren, d.scLabels,
         d.paramsCount, c.kind, c.lead, HasNoChildren(d), d.isHandler, d.spell)
  }

  /** The node is not the root, handles nothing, and has one static child and no other. */
  predicate IsCompactable(c: Cell) {
    c.parent != null && !c.isHandler && |c.staticChildren| == 1 && c.paramChild == null && c.anyChild == null
  }

  /** Two cells that differ at most in their links downwards. */
  predicate SameButLinks(a: Cell, b: Cell) {
    && a.parent == b.parent && a.prefix == b.prefix && a.kind == b.kind && a.lead == b.lead && a.spell == b.spell
    && a.methods == b.methods && a.originalPath == b.originalPath && a.paramsCount == b.paramsCount
    && a.isHandler == b.isHandler
  }

  /** `b` is the cell `a` without its child `d`. */
  predicate IsUnlinked(a: Cell, b: Cell, d: Node, kind: Kind) {
    && SameButLinks(a, b)
    && b.staticChildren == (if kind == Static then Without(a.staticChildren, IndexOf(a.staticChildren, d)) else a.staticChildren)
    && b.scLabels == (if kind == Static then Without(a.scLabels, IndexOf(a.staticChildren, d)) else a.scLabels)
    && b.paramChild == (if kind == Param then null else a.paramChild)
    && b.anyChild == (if kind == Any then null else a.anyChild)
    && b.isLeaf == HasNoChildren(b)
  }

  class Node {
    var parent: Node?
    var methods: MethodTable
    var paramChild: Node?
    var anyChild: Node?
    var prefix: string
    var originalPath: string
    var staticChildren: seq<Node>
    // The first byte of each static child, in the same order.
    var scLabels: seq<char>
    var paramsCount: nat
    var kind: Kind
    var lead: char
    var isLeaf: bool
    var isHandler: bool
    /** The prefixes from the root down to this node, in one string. */
    ghost var spell: string

    ghost function View(): Cell
      reads this
    {
      Cell(parent, methods, paramChild, anyChild, prefix, originalPath, staticChildren, scLabels,
           paramsCount, kind, lead, isLeaf, isHandler, spell)
    }

    /** `newNode`: labels, leaf and handler flags are worked out from what the node is given. */
    constructor (kind: Kind, pre: string, parent: Node?, children: seq<Node>, methods: MethodTable, paramsCount: nat,
                 originalPath: string, paramChild: Node?, anyChild: Node?, ghost spell: string)
      requires pre != ""
      ensures View() == Cell(parent, methods, paramChild, anyChild, pre, originalPath, children,
                             seq(|children|, i requires 0 <= i < |children| reads children => children[i].lead),
                             paramsCount, kind, pre[0],
                             |children| == 0 && paramChild == null && anyChild == null, methods.IsHandler(), spell)
    {
      this.kind, this.lead, this.prefix, this.parent := kind, pre[0], pre, parent;
      this.staticChildren, this.originalPath, this.paramsCount := children, originalPath, paramsCount;
      this.methods, this.paramChild, this.anyChild := methods, paramChild, anyChild;
      this.scLabels := seq(|children|, i requires 0 <= i < |children| reads children => children[i].lead);
      this.isLeaf := |children| == 0 && paramChild == null && anyChild == null;
      this.isHandler := methods.IsHandler();
      this.spell := spell;
    }

    /** The root of a new router. */
    constructor Blank()
      ensures View() == Cell(null, NoMethods, null, null, "", "", [], [], 0, Static, lead, true, false, "")
    {
      this.kind, this.prefix, this.parent := Static, "", null;
      this.staticChildren, this.scLabels, this.originalPath, this.paramsCount := [], [], "", 0;
      this.methods, this.paramChild, this.anyChild := NoMethods, null, null;
      this.isLeaf, this.isHandler := true, false;
      this.spell := "";
    }

    /** The node becomes the upper half of a split, with `low` as its only child. */
    method ResetUpper(k: nat, low: Node)
      requires 0 < k < |prefix| <= |spell| && low != this && low.lead == prefix[k]
      modifies this
      ensures View() == UpperHalf(old(View()), k, low)
    {
      ghost var c := View();
      kind := Static;
      lead := prefix[0];
      spell := spell[..|spell| - |prefix| + k];
      prefix := prefix[..k];
      ResetLinks();
      AddStaticChild(low);
      assert staticChildren == [low] && scLabels == [c.prefix[k]];
      assert View() == UpperHalf(c, k, low);
    }

    /** Forgets all children and handlers; a child follows at once, so the node is no leaf. */
    method ResetLinks()
      modifies this`staticChildren, this`scLabels, this`methods, this`originalPath, this`paramsCount, this`paramChild,
               this`anyChild, this`isLeaf, this`isHandler
      ensures staticChildren == [] && scLabels == [] && methods == NoMethods && originalPath == ""
      ensures paramsCount == 0 && paramChild == null && anyChild == null && !isLeaf && !isHandler
    {
      staticChildren := [];
      scLabels := [];
      methods := NoMethods;
      originalPath := "";
      paramsCount := 0;
      paramChild := null;
      anyChild := null;
      isLeaf := false;
      isHandler := false;
    }

    method SetHandler(verb: string, r: Option<RouteMethod>)
      modifies this`methods, this`isHandler
      ensures methods == old(methods).Set(verb, r) && isHandler == methods.IsHandler()
    {
      methods := methods.Set(verb, r);
      isHandler := methods.IsHandler();
    }

    method RefreshLeaf()
      modifies this`isLeaf
      ensures isLeaf <==> |staticChildren| == 0 && paramChild == null && anyChild == null
    {
      isLeaf := |staticChildren| == 0 && paramChild == null && anyChild == null;
    }

    method AddStaticChild(c: Node)
      modifies this`staticChildren, this`scLabels
      ensures staticChildren == old(staticChildren) + [c] && scLabels == old(scLabels) + [c.lead]
    {
      staticChildren := staticChildren + [c];
      scLabels := scLabels + [c.lead];
    }

    /** Takes over all that the only child holds. */
    method Absorb(child: Node)
      requires child != this
      modifies this`prefix, this`methods, this`isHandler, this`originalPath, this`paramsCount, this`staticChildren,
               this`scLabels, this`paramChild, this`anyChild, this`isLeaf, this`spell
      ensures prefix == old(prefix) + child.prefix && spell == child.spell
      ensures methods == child.methods && isHandler == child.isHandler
      ensures originalPath == child.originalPath && paramsCount == child.paramsCount
      ensures staticChildren == child.staticChildren && scLabels == child.scLabels
      ensures paramChild == child.paramChild && anyChild == child.anyChild && isLeaf == HasNoChildren(child.View())
    {
      prefix := prefix + child.prefix;
      methods := child.methods;
      isHandler := child.isHandler;
      originalPath := child.originalPath;
      paramsCount := child.paramsCount;
      staticChildren := child.staticChildren;
      scLabels := child.scLabels;
      paramChild := child.paramChild;
      anyChild := child.anyChild;
      spell := child.spell;
      RefreshLeaf();
    }

    /** Takes `child` out of the links of this node. */
    method Unlink(child: Node)
      requires |scLabels| == |staticChildren| && (child.kind == Static ==> child in staticChildren)
      modifies this`staticChildren, this`scLabels, this`paramChild, this`anyChild, this`isLeaf
      ensures IsUnlinked(old(View()), View(), child, child.kind)
    {
      match child.kind {
        case Static => UnlinkStatic(child);
        case Param => paramChild := null;
        case Any => anyChild := null;
      }
      RefreshLeaf();
    }

    method UnlinkStatic(child: Node)
      requires |scLabels| == |staticChildren| && child in staticChildren
      modifies this`staticChildren, this`scLabels
      ensures staticChildren == Without(old(staticChildren), IndexOf(old(staticChildren), child))
      ensures scLabels == Without(old(scLabels), IndexOf(old(staticChildren), child))
    {
      var index := 0;
      while index < |staticChildren| && staticChildren[index] != child
        invariant index <= |staticChildren| && child !in staticChildren[..index]
      {
        index := index + 1;
      }
      IndexOfFirst(staticChildren, child, index);
      staticChildren := Without(staticChildren, index);
      scLabels := Without(scLabels, index);
    }

    method FindChildWithLabel(l: char) returns (child: Node?)
      requires |scLabels| == |staticChildren|
      ensures child == ChildTowards(View(), l)
    {
      child := FindStaticChild(l);
      if child != null {
        return;
      }
      if l == PARAM_LABEL {
        return paramChild;
      }
      if l == ANY_LABEL {
        return anyChild;
      }
      child := null;
    }

    method FindStaticChild(l: char) returns (child: Node?)
      requires |scLabels| == |staticChildren|
      ensures child == null <==> l !in scLabels
      ensures child != null ==> child == staticChildren[IndexOf(scLabels, l)]
    {
      for i := 0 to |scLabels|
        invariant l !in scLabels[..i]
      {
        if scLabels[i] == l {
          IndexOfFirst(scLabels, l, i);
          return staticChildren[i];
        }
      }
      child := null;
    }
  }

  ghost function Snapshot(nodes: set<Node>): Graph
    reads nodes
  {
    map n | n in nodes :: n.View()
  }

  // ---------------------------------------------------------------------------
  // Well-formed graphs.

  ghost predicate IsChild(g: Graph, p: Node, n: Node)
    requires p in g && n in g
  {
    match g[n].kind
    case Static => n in g[p].staticChildren
    case Param => g[p].paramChild == n
    case Any => g[p].anyChild == n
  }

  ghost predicate UpOk(g: Graph, root: Node, n: Node)
    requires n in g
  {
    var c := g[n];
    if n == root then c.parent == null && c.kind == Static && c.spell == c.prefix
    else c.parent != null && c.parent in g && c.spell == g[c.parent].spell + c.prefix && IsChild(g, c.parent, n)
  }

  ghost predicate ChildOk(g: Graph, n: Node, child: Node?, kind: Kind) {
    child != null ==> child in g && g[child].parent == n && g[child].kind == kind
  }

  ghost predicate StaticsOk(g: Graph, n: Node)
    requires n in g
  {
    var c := g[n];
    && |c.scLabels| == |c.staticChildren|
    && (forall i :: 0 <= i < |c.staticChildren| ==>
          ChildOk(g, n, c.staticChildren[i], Static) && g[c.staticChildren[i]].lead == c.scLabels[i])
    && (forall i, j :: 0 <= i < j < |c.scLabels| ==> c.scLabels[i] != c.scLabels[j])
  }

  ghost predicate DownOk(g: Graph, n: Node)
    requires n in g
  {
    && StaticsOk(g, n)
    && ChildOk(g, n, g[n].paramChild, Param)
    && ChildOk(g, n, g[n].anyChild, Any)
  }

  predicate HasNoChildren(c: Cell) {
    |c.staticChildren| == 0 && c.paramChild == null && c.anyChild == null
  }

  predicate IsBound(c: Cell) {
    c.methods.bound != map[]
  }

  ghost predicate CellOk(c: Cell) {
    && c.prefix != ""
    && c.lead == c.prefix[0]
    && (c.isLeaf <==> HasNoChildren(c))
    && (c.isHandler <==> c.methods.IsHandler())
    && match c.kind
       case Static => IsPlain(c.prefix)
       case Param => c.prefix == [PARAM_LABEL]
       case Any => c.prefix == [ANY_LABEL] && HasNoChildren(c) && IsBound(c)
  }

  /** What a registration leaves behind at a node: as many names as marks, and a path of its shape. */
  ghost predicate BindingOk(c: Cell) {
    && (IsBound(c) ==> c.paramsCount == CountMarks(c.spell) && Shape(c.originalPath) == c.spell)
    && (forall m :: m in c.methods.bound ==> |c.methods.bound[m].params| == CountMarks(c.spell))
  }

  ghost predicate NodeOk(g: Graph, root: Node, n: Node)
    requires n in g
  {
    CellOk(g[n]) && BindingOk(g[n]) && UpOk(g, root, n) && DownOk(g, n)
  }

  ghost predicate WellFormed(g: Graph, root: Node) {
    root in g && forall n {:trigger NodeOk(g, root, n)} :: n in g ==> NodeOk(g, root, n)
  }

  /** The tree before the first registration: a root without a prefix. */
  ghost predicate IsBlank(g: Graph, root: Node) {
    && g.Keys == {root}
    && g[root] == Cell(null, NoMethods, null, null, "", "", [], [], 0, Static, g[root].lead, true, false, "")
  }

  ghost function Spells(g: Graph): set<string> {
    set n | n in g :: g[n].spell
  }

  ghost function EntryOf(c: Cell): Entry {
    Entry(c.methods, c.originalPath)
  }

  ghost predicate Agrees(g: Graph, entries: map<string, Entry>, n: Node)
    requires n in g
  {
    && (g[n].spell in entries <==> IsBound(g[n]))
    && (IsBound(g[n]) ==> entries[g[n].spell] == EntryOf(g[n]))
  }

  /** The graph stores exactly these entries, each under the node that spells its shape. */
  ghost predicate Represents(g: Graph, entries: map<string, Entry>) {
    && (forall n {:trigger Agrees(g, entries, n)} :: n in g ==> Agrees(g, entries, n))
    && (forall s :: s in entries ==> s in Spells(g))
  }

  /** The nodes whose parent a node is are the ones that it links to. */
  lemma ChildrenOf(g: Graph, root: Node, n: Node)
    requires WellFormed(g, root) && n in g
    ensures |g[n].scLabels| == |g[n].staticChildren|
    ensures forall m :: m in g ==>
              (g[m].parent == n <==> m in g[n].staticChildren || m == g[n].paramChild || m == g[n].anyChild)
    ensures forall i :: 0 <= i < |g[n].staticChildren| ==> g[n].staticChildren[i] in g
    ensures g[n].paramChild != null ==> g[n].paramChild in g
    ensures g[n].anyChild != null ==> g[n].anyChild in g
  {
    assert NodeOk(g, root, n);
    forall i | 0 <= i < |g[n].staticChildren|
      ensures g[n].staticChildren[i] in g && g[g[n].staticChildren[i]].parent == n
    {
      assert ChildOk(g, n, g[n].staticChildren[i], Static);
    }
    forall m | m in g && g[m].parent == n
      ensures m in g[n].staticChildren || m == g[n].paramChild || m == g[n].anyChild
    {
      assert NodeOk(g, root, m);
    }
  }

  // ---------------------------------------------------------------------------
  // Paths down the tree.

  ghost predicate Under(g: Graph, root: Node, n: Node, m: Node)
    requires WellFormed(g, root) && n in g && m in g
    decreases |g[m].spell|
  {
    n == m || (m != root && (assert NodeOk(g, root, m); Under(g, root, n, g[m].parent)))
  }

  lemma {:induction false} UnderSpells(g: Graph, root: Node, n: Node, m: Node)
    requires WellFormed(g, root) && n in g && m in g && Under(g, root, n, m)
    ensures g[n].spell <= g[m].spell
    decreases |g[m].spell|
  {
    if n != m {
      assert NodeOk(g, root, m);
      UnderSpells(g, root, n, g[m].parent);
    }
  }

  lemma {:induction false} AllUnderRoot(g: Graph, root: Node, m: Node)
    requires WellFormed(g, root) && m in g
    ensures Under(g, root, root, m)
    decreases |g[m].spell|
  {
    assert NodeOk(g, root, m);
    if m != root {
      AllUnderRoot(g, root, g[m].parent);
    }
  }

  /** The child of `n` on the way down to `m`. */
  lemma {:induction false} Toward(g: Graph, root: Node, n: Node, m: Node) returns (d: Node)
    requires WellFormed(g, root) && n in g && m in g && Under(g, root, n, m) && n != m
    ensures d in g && d != root && g[d].parent == n && g[d].spell <= g[m].spell
    ensures g[d].spell == g[n].spell + g[d].prefix && g[d].prefix != "" && g[d].lead == g[d].prefix[0]
    decreases |g[m].spell|
  {
    assert NodeOk(g, root, m);
    var p := g[m].parent;
    if p == n {
      d := m;
    } else {
      d := Toward(g, root, n, p);
    }
  }

  lemma SiblingsDiffer(g: Graph, root: Node, a: Node, b: Node)
    requires WellFormed(g, root) && a in g && b in g && a != root && b != root
    requires g[a].parent == g[b].parent && g[a].lead == g[b].lead
    ensures a == b
  {
    assert NodeOk(g, root, a) && NodeOk(g, root, b);
    var p := g[a].parent;
    assert NodeOk(g, root, p);
    assert g[a].kind == Static ==> !IsMark(g[a].prefix[0]);
    assert g[b].kind == Static ==> !IsMark(g[b].prefix[0]);
    if g[a].kind == Static && g[b].kind == Static {
      var i :| 0 <= i < |g[p].staticChildren| && g[p].staticChildren[i] == a;
      var j :| 0 <= j < |g[p].staticChildren| && g[p].staticChildren[j] == b;
    }
  }

  /** In a compressed tree, being above another node is the same as spelling one of its prefixes. */
  lemma {:induction false} PrefixIsAbove(g: Graph, root: Node, n: Node, m: Node)
    requires WellFormed(g, root) && n in g && m in g && g[n].spell <= g[m].spell
    ensures Under(g, root, n, m)
    decreases |g[n].spell|
  {
    AllUnderRoot(g, root, m);
    assert NodeOk(g, root, n);
    if n != root {
      var p := g[n].parent;
      assert g[p].spell <= g[m].spell;
      PrefixIsAbove(g, root, p, m);
      var d := Toward(g, root, p, m);
      assert NodeOk(g, root, d);
      var k := |g[p].spell|;
      assert g[d].spell[k] == g[m].spell[k] == g[n].spell[k];
      assert g[d].lead == g[n].lead;
      SiblingsDiffer(g, root, n, d);
      UnderChild(g, root, p, d, m);
    }
  }

  lemma {:induction false} UnderChild(g: Graph, root: Node, p: Node, d: Node, m: Node)
    requires WellFormed(g, root) && p in g && d in g && m in g && d != root && g[d].parent == p
    requires Under(g, root, p, m) && p != m && g[d].spell <= g[m].spell
    ensures Under(g, root, d, m)
    decreases |g[m].spell|
  {
    assert NodeOk(g, root, m) && NodeOk(g, root, d);
    if d != m {
      var u := g[m].parent;
      if u == p {
        var k := |g[p].spell|;
        assert g[d].spell[k] == g[m].spell[k];
        SiblingsDiffer(g, root, d, m);
      } else {
        var e := Toward(g, root, p, u);
        assert NodeOk(g, root, e) && NodeOk(g, root, u);
        var k := |g[p].spell|;
        assert g[u].spell <= g[m].spell;
        assert g[e].spell[k] == g[u].spell[k] == g[m].spell[k] == g[d].spell[k];
        SiblingsDiffer(g, root, d, e);
        UnderChild(g, root, p, d, u);
      }
    }
  }

  lemma SpellsDiffer(g: Graph, root: Node, n: Node, m: Node)
    requires WellFormed(g, root) && n in g && m in g && g[n].spell == g[m].spell
    ensures n == m
  {
    PrefixIsAbove(g, root, n, m);
    if n != m {
      var d := Toward(g, root, n, m);
    }
  }

  /** Whatever goes on after a node goes through one of its children. */
  lemma Descend(g: Graph, root: Node, n: Node, m: Node) returns (d: Node)
    requires WellFormed(g, root) && n in g && m in g && g[n].spell <= g[m].spell && n != m
    ensures d in g && d != root && g[d].parent == n && g[d].spell <= g[m].spell && IsChild(g, n, d)
    ensures |g[n].spell| < |g[m].spell| && g[d].lead == g[m].spell[|g[n].spell|]
  {
    PrefixIsAbove(g, root, n, m);
    d := Toward(g, root, n, m);
    assert g[d].lead == g[d].spell[|g[n].spell|];
    assert NodeOk(g, root, d);
  }

  // ---------------------------------------------------------------------------
  // What a node tells about the query that the tree stores.

  ghost predicate Stores(g: Graph, q: Query) {
    q.skeleton == Spells(g) && Represents(g, q.entries)
  }

  lemma Spelled(g: Graph, s: string) returns (m: Node)
    requires s in Spells(g)
    ensures m in g && g[m].spell == s
  {
    m :| m in g && g[m].spell == s;
  }

  lemma NodeIsLive(g: Graph, n: Node, pre: string)
    requires n in g && pre <= g[n].spell
    ensures Live(Spells(g), pre)
  {
    assert g[n].spell in Spells(g);
  }

  /** The child of `n` in the direction of a live string. */
  lemma LiveChild(g: Graph, root: Node, n: Node, c: char) returns (d: Node)
    requires WellFormed(g, root) && n in g && Live(Spells(g), g[n].spell + [c])
    ensures d in g && d != root && g[d].parent == n && g[d].lead == c && IsChild(g, n, d)
    ensures g[d].kind == (if c == PARAM_LABEL then Param else if c == ANY_LABEL then Any else Static)
  {
    var s :| s in Spells(g) && g[n].spell + [c] <= s;
    var m := Spelled(g, s);
    assert g[m].spell[|g[n].spell|] == c;
    d := Descend(g, root, n, m);
    assert NodeOk(g, root, d);
  }

  lemma EdgeOfStatic(g: Graph, root: Node, q: Query, n: Node)
    requires WellFormed(g, root) && Stores(g, q) && n in g && n != root && g[n].kind == Static
    ensures NodeOk(g, root, n)
    ensures StaticEdge(q, g[g[n].parent].spell, g[n].prefix)
  {
    assert NodeOk(g, root, n);
    var u, p := g[n].parent, g[n].prefix;
    var b := g[u].spell;
    NodeIsLive(g, n, b + p);
    forall j, s | 0 < j < |p| && s in Spells(g) && b + p[..j] <= s ensures b + p <= s {
      var m := Spelled(g, s);
      assert b <= s && s[|b|] == p[0];
      var d := Descend(g, root, u, m);
      SiblingsDiffer(g, root, n, d);
    }
    assert forall j :: 0 < j < |p| ==> b + p[..j] !in Spells(g);
  }

  lemma EdgeOfRoot(g: Graph, root: Node, q: Query)
    requires WellFormed(g, root) && Stores(g, q)
    ensures NodeOk(g, root, root)
    ensures StaticEdge(q, "", g[root].prefix)
    ensures "" !in q.entries
    ensures forall c :: Live(q.skeleton, "" + [c]) ==> c == g[root].prefix[0]
  {
    assert NodeOk(g, root, root);
    var p := g[root].prefix;
    assert "" + p == p;
    NodeIsLive(g, root, p);
    forall s | s in Spells(g) ensures p <= s {
      var m := Spelled(g, s);
      AllUnderRoot(g, root, m);
      UnderSpells(g, root, root, m);
    }
    assert forall j :: 0 < j < |p| ==> "" + p[..j] !in Spells(g);
  }

  lemma StaticsShowLive(g: Graph, root: Node, q: Query, n: Node, rest: string)
    requires WellFormed(g, root) && Stores(g, q) && n in g
    ensures HasStatic(q, g[n].spell, rest) <==> rest != "" && rest[0] in g[n].scLabels
  {
    assert NodeOk(g, root, n);
    if rest != "" && rest[0] in g[n].scLabels {
      var i :| 0 <= i < |g[n].scLabels| && g[n].scLabels[i] == rest[0];
      var d := g[n].staticChildren[i];
      assert NodeOk(g, root, d);
      NodeIsLive(g, d, g[n].spell + [rest[0]]);
    }
    if HasStatic(q, g[n].spell, rest) {
      var d := LiveChild(g, root, n, rest[0]);
      assert NodeOk(g, root, d);
    }
  }

  lemma ParamShowsLive(g: Graph, root: Node, q: Query, n: Node)
    requires WellFormed(g, root) && Stores(g, q) && n in g
    ensures Live(q.skeleton, g[n].spell + [PARAM_LABEL]) <==> g[n].paramChild != null
    ensures g[n].paramChild != null ==>
              && g[n].paramChild in g
              && g[g[n].paramChild].spell == g[n].spell + [PARAM_LABEL]
              && (IsEnd(q.skeleton, g[n].spell + [PARAM_LABEL]) <==> g[g[n].paramChild].isLeaf)
  {
    assert NodeOk(g, root, n);
    var d := g[n].paramChild;
    if d != null {
      assert NodeOk(g, root, d);
      NodeIsLive(g, d, g[n].spell + [PARAM_LABEL]);
      LeafIsEnd(g, root, d);
    } else if Live(q.skeleton, g[n].spell + [PARAM_LABEL]) {
      var e := LiveChild(g, root, n, PARAM_LABEL);
    }
  }

  lemma AnyShowsLive(g: Graph, root: Node, q: Query, n: Node)
    requires WellFormed(g, root) && Stores(g, q) && n in g
    ensures HasAny(q, g[n].spell) <==> g[n].anyChild != null
    ensures g[n].anyChild != null ==> g[n].anyChild in g && g[g[n].anyChild].spell == g[n].spell + [ANY_LABEL]
  {
    assert NodeOk(g, root, n);
    var d := g[n].anyChild;
    if d != null {
      assert NodeOk(g, root, d);
      NodeIsLive(g, d, g[n].spell + [ANY_LABEL]);
    } else if HasAny(q, g[n].spell) {
      var e := LiveChild(g, root, n, ANY_LABEL);
    }
  }

  lemma LeafIsEnd(g: Graph, root: Node, d: Node)
    requires WellFormed(g, root) && d in g
    ensures g[d].isLeaf <==> IsEnd(Spells(g), g[d].spell)
  {
    assert NodeOk(g, root, d);
    if g[d].isLeaf {
      forall s | s in Spells(g) && g[d].spell <= s ensures s == g[d].spell {
        var m := Spelled(g, s);
        if m != d {
          var e := Descend(g, root, d, m);
        }
      }
    } else {
      var e := if |g[d].staticChildren| > 0 then g[d].staticChildren[0]
               else if g[d].paramChild != null then g[d].paramChild else g[d].anyChild;
      assert NodeOk(g, root, e);
      assert g[e].spell in Spells(g);
    }
  }

  lemma ChildTowardsFacts(g: Graph, root: Node, n: Node, l: char)
    requires WellFormed(g, root) && n in g
    ensures |g[n].scLabels| == |g[n].staticChildren|
    ensures var c := ChildTowards(g[n], l);
            c != null ==>
              && c in g && g[c].spell == g[n].spell + g[c].prefix && g[c].prefix != "" && g[c].prefix[0] == l
              && |g[c].scLabels| == |g[c].staticChildren|
  {
    assert NodeOk(g, root, n);
    var c := ChildTowards(g[n], l);
    if c != null {
      assert l in g[n].scLabels ==> ChildOk(g, n, g[n].staticChildren[IndexOf(g[n].scLabels, l)], Static);
      assert NodeOk(g, root, c);
    }
  }
}
