/**
 One search through the tree, as a machine over the loop's variables. The loop has three labels: at
 `Enter` the current node has just been reached, at `TryParam` and `TryAny` its parameter and its any
 child are next. Every step keeps `Ok`, which ties the variables to the reference search.
 */
module RouteCursor {
  import opened Wrappers
  import opened RoutePaths
  import opened RouteTable
  import opened RadixTree

  datatype Label = Enter | TryParam | TryAny | Finished

  function Rank(c: char): nat {
    if c == ANY_LABEL then 2 else if c == PARAM_LABEL then 1 else 0
  }

  /** A search at `b` that has passed over the children of rank below `r` may still come to `x`. */
  ghost predicate After(x: string, b: string, r: nat) {
    exists j :: 0 <= j <= |b| && AfterAt(x, b, r, j)
  }

  ghost predicate AfterAt(x: string, b: string, r: nat, j: nat)
    requires j <= |b|
  {
    && j < |x| && x[..j] == b[..j]
    && if j < |b| then Rank(x[j]) > Rank(b[j]) else Rank(x[j]) >= r
  }

  ghost function Pending(g: Graph, b: string, r: nat): set<Node> {
    set n | n in g && After(g[n].spell, b, r)
  }

  function CommonPrefixLength(a: string, b: string): (n: nat)
    ensures n <= |a| && n <= |b| && a[..n] == b[..n]
    ensures n < |a| && n < |b| ==> a[n] != b[n]
  {
    if a == "" || b == "" || a[0] != b[0] then 0
    else
      var n := CommonPrefixLength(a[1..], b[1..]);
      assert a[..1 + n] == [a[0]] + a[1..][..n] && b[..1 + n] == [b[0]] + b[1..][..n];
      1 + n
  }

  /** What stays fixed during one search: the tree, the query, the path and the reference outcome. */
  datatype Context = Context(g: Graph, root: Node, q: Query, path: string, total: Outcome, width: nat)

  /** The variables of the loop. */
  datatype Place = Place(
    node: Node?,
    best: Node?,
    matched: Option<RouteMethod>,
    search: string,
    searchIndex: nat,
    paramIndex: nat,
    next: Label,
    values: seq<string>)

  ghost predicate ContextOk(x: Context) {
    && WellFormed(x.g, x.root)
    && Stores(x.g, x.q)
    && (forall n :: n in x.g ==> CountMarks(x.g[n].spell) <= x.width)
  }

  ghost function StateOf(x: Context, p: Place): State {
    State(p.values, if p.best == null || p.best !in x.g then None else Some(x.g[p.best].spell))
  }

  /** `pre` has been read: with the values found so far it spells the path up to `searchIndex`. */
  predicate HasRead(x: Context, p: Place, pre: string) {
    && p.searchIndex <= |x.path| && p.search == x.path[p.searchIndex..]
    && p.paramIndex == CountMarks(pre) <= |p.values|
    && Fill(pre, p.values) == x.path[..p.searchIndex]
  }

  function Above(c: Cell): string {
    if |c.prefix| <= |c.spell| then c.spell[..|c.spell| - |c.prefix|] else ""
  }

  ghost predicate EnterOk(x: Context, p: Place, c: Cell) {
    if c.kind == Static then
      && HasRead(x, p, Above(c))
      && x.total == Unwind(x.q, Above(c), p.search, Below(x.q, Above(c), p.search, StateOf(x, p)))
      && (p.node == x.root || (p.search != "" && c.prefix != "" && p.search[0] == c.prefix[0]))
    else
      && c.kind == Param
      && HasRead(x, p, c.spell)
      && x.total == Unwind(x.q, c.spell, p.search, Search(x.q, c.spell, p.search, StateOf(x, p)))
  }

  ghost predicate FinishedOk(x: Context, p: Place) {
    && x.total.st == StateOf(x, p)
    && (p.matched.Some? <==> x.total.Hit?)
    && (x.total.Hit? ==>
          && p.node in x.g && IsBound(x.g[p.node])
          && x.g[p.node].spell == x.total.shape && p.matched.value == x.total.route)
    && (x.total.Stop? ==> p.node != null && p.best != null)
    && (x.total.Miss? ==> p.node == null)
  }

  ghost predicate Ok(x: Context, p: Place) {
    && |p.values| == x.width
    && (p.best != null ==> p.best in x.g && IsBound(x.g[p.best]))
    && if p.next == Finished then FinishedOk(x, p)
       else
         && p.matched.None?
         && p.node in x.g
         && var c := x.g[p.node];
            match p.next
            case Enter => EnterOk(x, p, c)
            case TryParam =>
              && c.kind != Any && HasRead(x, p, c.spell)
              && x.total == Unwind(x.q, c.spell, p.search, FromParam(x.q, c.spell, p.search, StateOf(x, p)))
            case TryAny =>
              && c.kind != Any && HasRead(x, p, c.spell)
              && x.total == Unwind(x.q, c.spell, p.search, FromAny(x.q, c.spell, p.search, StateOf(x, p)))
            case Finished => true
  }

  ghost function Ahead(x: Context, p: Place): set<Node> {
    if p.next == Finished || p.node !in x.g then {}
    else Pending(x.g, x.g[p.node].spell, if p.next == Enter then 0 else if p.next == TryParam then 1 else 2)
  }

  ghost function Depth(x: Context, p: Place): nat {
    if p.node !in x.g then 0 else |x.g[p.node].spell|
  }

  function Turn(p: Place): nat {
    match p.next case Enter => 3 case TryParam => 2 case TryAny => 1 case Finished => 0
  }

  /** Fewer nodes ahead, or the same and closer to the root or to the next label. */
  ghost predicate Moved(x: Context, p: Place, p': Place) {
    && Ahead(x, p') <= Ahead(x, p)
    && (p'.next == Enter ==> p'.node in Ahead(x, p) && p'.node !in Ahead(x, p'))
    && (Ahead(x, p') == Ahead(x, p) ==>
          Depth(x, p') < Depth(x, p) || (Depth(x, p') == Depth(x, p) && Turn(p') < Turn(p)))
  }

  /** What is ahead of the search gets less, or else its depth, or else its turn. */
  ghost predicate IsCloser(x: Context, p: Place, p': Place) {
    || Ahead(x, p') < Ahead(x, p)
    || (Ahead(x, p') == Ahead(x, p)
        && (Depth(x, p') < Depth(x, p) || (Depth(x, p') == Depth(x, p) && Turn(p') < Turn(p))))
  }

  /** Back to the parent; with `restore`, the bytes that the current node read are given back. */
  ghost function Back(x: Context, p: Place, restore: bool): Place
    requires p.node in x.g
  {
    var c := x.g[p.node];
    if !restore then p.(node := c.parent)
    else if c.kind == Static then
      var i := if |c.prefix| <= p.searchIndex <= |x.path| then p.searchIndex - |c.prefix| else 0;
      p.(node := c.parent, searchIndex := i, search := x.path[i..])
    else
      var k := if 0 < p.paramIndex then p.paramIndex - 1 else 0;
      var taken := if k < |p.values| then |p.values[k]| else 0;
      var i := if taken <= p.searchIndex <= |x.path| then p.searchIndex - taken else 0;
      p.(node := c.parent, paramIndex := k, searchIndex := i, search := x.path[i..], values := Put(p.values, k, ""))
  }

  ghost function AnyTaken(x: Context, p: Place, child: Node): Place
    requires child in x.g
  {
    FoundAtAny(x, p.(node := child,
                     values := Put(p.values, p.paramIndex, p.search),
                     paramIndex := p.paramIndex + 1,
                     searchIndex := p.searchIndex + |p.search|,
                     search := ""))
  }

  ghost function FoundAtAny(x: Context, p: Place): Place
    requires p.node in x.g
  {
    var m := x.g[p.node].methods;
    var found := m.Find(x.q.verb, true, x.q.autoHead);
    p.(matched := if found.Some? then found else m.NotFound(),
       best := if found.None? && p.best == null then p.node else p.best)
  }

  ghost function EndAtAny(x: Context, p: Place, child: Node): Place
    requires child in x.g
  {
    var t := AnyTaken(x, p, child);
    (if t.matched.Some? then t else Back(x, t, true)).(next := Finished)
  }

  ghost function Leave(x: Context, p: Place): Place
    requires p.node in x.g
  {
    var b := Back(x, p, true);
    b.(next := if b.node == null then Finished else if x.g[p.node].kind == Static then TryParam else TryAny)
  }

  /** An any child, if there is one, has its own slot, and the rest ends where the path ends. */
  ghost predicate CanTakeAny(x: Context, p: Place) {
    && p.node in x.g
    && x.g[p.node].anyChild in x.g
    && x.g[x.g[p.node].anyChild].kind == Any
    && x.g[x.g[p.node].anyChild].paramsCount == p.paramIndex + 1 <= |p.values|
    && p.searchIndex + |p.search| == |x.path|
  }

  /** A parameter child takes its value off the front of the rest. */
  ghost function TakeParam(x: Context, p: Place, child: Node): Place
    requires child in x.g
  {
    var n := if x.g[child].isLeaf then |p.search| else SegmentLength(p.search);
    p.(node := child, values := Put(p.values, p.paramIndex, p.search[..n]), paramIndex := p.paramIndex + 1,
       search := p.search[n..], searchIndex := p.searchIndex + n, next := Enter)
  }

  ghost function Onward(x: Context, p: Place): Place
    requires p.node in x.g
  {
    var c := x.g[p.node];
    if p.search != "" && p.search[0] in c.scLabels then
      var i := IndexOf(c.scLabels, p.search[0]);
      if i < |c.staticChildren| then p.(node := c.staticChildren[i], next := Enter) else p
    else p.(next := TryParam)
  }

  ghost function AtNode(x: Context, p: Place): Place
    requires p.node in x.g
  {
    var m := x.g[p.node].methods;
    if p.search == "" && x.g[p.node].isHandler then
      var best := if p.best == null then p.node else p.best;
      var found := m.Find(x.q.verb, true, x.q.autoHead);
      if found.Some? then p.(best := best, matched := found, next := Finished)
      else Onward(x, p.(best := best))
    else if p.search == "" && m.NotFound().Some? then
      p.(matched := m.NotFound(), next := Finished)
    else
      Onward(x, p)
  }

  ghost function EnterNode(x: Context, p: Place): Place
    requires p.node in x.g
  {
    var c := x.g[p.node];
    var lcp := if c.kind == Static then CommonPrefixLength(p.search, c.prefix) else 0;
    if lcp != (if c.kind == Static then |c.prefix| else 0) then
      var b := Back(x, p, false);
      b.(next := if b.node == null then Finished else TryParam)
    else
      AtNode(x, p.(search := p.search[lcp..], searchIndex := p.searchIndex + lcp))
  }

  /** One step of the loop. */
  ghost function Step(x: Context, p: Place): Place
    requires p.node in x.g && p.next != Finished
  {
    var c := x.g[p.node];
    match p.next
    case Enter => EnterNode(x, p)
    case TryParam =>
      if p.search != "" && c.paramChild in x.g then TakeParam(x, p, c.paramChild) else p.(next := TryAny)
    case TryAny =>
      if c.anyChild in x.g then EndAtAny(x, p, c.anyChild) else Leave(x, p)
    case Finished => p
  }

  /** All of the current node has been read; `total` is what searching below it gives. */
  ghost predicate Arrived(x: Context, p: Place) {
    && |p.values| == x.width
    && (p.best != null ==> p.best in x.g && IsBound(x.g[p.best]))
    && p.matched.None? && p.node in x.g
    && x.g[p.node].kind != Any
    && HasRead(x, p, x.g[p.node].spell)
  }

  /** What a step enters: the child that the search goes on with, or the any child that ends it. */
  ghost function EnteredBy(x: Context, p: Place): seq<Node>
    requires p.node in x.g && p.next != Finished
  {
    var p' := Step(x, p);
    if p'.next == Enter && p'.node != null then [p'.node]
    else if p.next == TryAny && x.g[p.node].anyChild in x.g then [x.g[p.node].anyChild]
    else []
  }

  predicate NoDuplicates(nodes: seq<Node>) {
    forall i, j :: 0 <= i < j < |nodes| ==> nodes[i] != nodes[j]
  }

  /** What the current node read can be given back. */
  predicate CanRestore(x: Context, p: Place) {
    && p.searchIndex <= |x.path| && p.node in x.g
    && if x.g[p.node].kind == Static then |x.g[p.node].prefix| <= p.searchIndex
       else 0 < p.paramIndex <= |p.values| && |p.values[p.paramIndex - 1]| <= p.searchIndex
  }

  /** The children of a node, and its parent, are nodes of the tree. */
  ghost predicate UsableNode(g: Graph, n: Node)
    requires n in g
  {
    && |g[n].scLabels| == |g[n].staticChildren|
    && (forall i :: 0 <= i < |g[n].staticChildren| ==> g[n].staticChildren[i] in g)
    && (g[n].paramChild != null ==> g[n].paramChild in g)
    && (g[n].anyChild != null ==> g[n].anyChild in g)
  }

  ghost predicate Usable(g: Graph) {
    forall n {:trigger UsableNode(g, n)} :: n in g ==> UsableNode(g, n)
  }

  ghost predicate BlankContext(x: Context) {
    IsBlank(x.g, x.root) && x.q.skeleton == {} && x.q.entries == map[]
  }

  /** Before the first registration the search only turns its labels. */
  ghost predicate BlankOk(x: Context, p: Place) {
    && p == Place(if p.next == Finished then null else x.root, null, None, x.path, 0, 0, p.next, p.values)
    && |p.values| == x.width
    && x.total == Miss(State(p.values, None))
  }

  ghost predicate Searching(x: Context, p: Place) {
    (ContextOk(x) && Ok(x, p)) || (BlankContext(x) && BlankOk(x, p))
  }

  /** What the next step needs in order to be safe: slots in range, and bytes that can be given back. */
  ghost predicate CanStep(x: Context, p: Place) {
    && p.node in x.g && p.next != Finished && p.matched.None?
    && (p.next == TryParam && x.g[p.node].paramChild != null ==> p.paramIndex < |p.values|)
    && (p.next == TryAny ==> if x.g[p.node].anyChild == null then CanRestore(x, p) else CanTakeAny(x, p))
  }
}
