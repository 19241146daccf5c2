/** Nested transactions: what a program of nested `WithTransaction` calls means, whatever the database does. */
module Transactions {

  /** A write is known by its number; the contents of a database are the writes that have been applied. */
  type Contents = seq<nat>

  datatype Outcome = Ok | Error(code: nat) | Panicked(code: nat)

  /**
   One run of a callback. After a nested call it goes on with one of three continuations, depending on
   how the call ended; a callback that does not recover has a panic as its third one. `opens` and
   `releases` say whether the database carries out the statements that set and release the savepoint.
   `Elsewhere` stands for savepoint numbers that other transactions take in the meantime.
   */
  datatype Program =
    | Return(outcome: Outcome)
    | Write(w: nat, next: Program)
    | Elsewhere(taken: nat, next: Program)
    | Nested(body: Program, opens: bool, releases: bool, onOk: Program, onError: Program, onPanic: Program)

  const NO_SAVEPOINT: nat := 0

  function Next(p: Program, o: Outcome): Program
    requires p.Nested?
  {
    match o case Ok => p.onOk case Error(_) => p.onError case Panicked(_) => p.onPanic
  }

  /** Nested transactions by the book: a level that does not succeed leaves what was there before it. */
  function Meaning(p: Program, db: Contents): (r: (Contents, Outcome)) {
    match p
    case Return(o) => (db, o)
    case Write(w, next) => Meaning(next, db + [w])
    case Elsewhere(_, next) => Meaning(next, db)
    case Nested(body, opens, _, onOk, onError, onPanic) =>
      if !opens then Meaning(onError, db)
      else
        var (db', o) := Meaning(body, db);
        match o
        case Ok => Meaning(onOk, db')
        case Error(_) => Meaning(onError, db)
        case Panicked(_) => Meaning(onPanic, db)
  }

  /** The outermost call: a transaction of its own, which the database may refuse to begin or to commit. */
  function TopMeaning(p: Program, db: Contents, begins: bool, commits: bool): (Contents, Outcome) {
    if !begins then (db, Error(NO_SAVEPOINT))
    else
      var (db', o) := Meaning(p, db);
      if o != Ok then (db, o) else if commits then (db', Ok) else (db, Error(NO_SAVEPOINT))
  }

  // ---------------------------------------------------------------------------
  // Which writes survive, told from the trace of a run alone.

  datatype Event = Opened | Wrote(w: nat) | Closed(ok: bool)

  function EndOf(p: Program): Outcome {
    match p
    case Return(o) => o
    case Write(_, next) => EndOf(next)
    case Elsewhere(_, next) => EndOf(next)
    case Nested(body, opens, _, onOk, onError, onPanic) =>
      if !opens then EndOf(onError)
      else match EndOf(body) case Ok => EndOf(onOk) case Error(_) => EndOf(onError) case Panicked(_) => EndOf(onPanic)
  }

  /** What happens in a run, in order. */
  function Trace(p: Program): seq<Event> {
    match p
    case Return(_) => []
    case Write(w, next) => [Wrote(w)] + Trace(next)
    case Elsewhere(_, next) => Trace(next)
    case Nested(body, opens, _, onOk, onError, onPanic) =>
      if !opens then Trace(onError)
      else
        var rest := match EndOf(body) case Ok => Trace(onOk) case Error(_) => Trace(onError) case Panicked(_) => Trace(onPanic);
        [Opened] + (Trace(body) + ([Closed(EndOf(body) == Ok)] + rest))
  }

  /** Reading on from inside some levels, every one of them is closed with success; `depth` counts the levels opened since. */
  predicate AllClosedOk(after: seq<Event>, depth: nat) {
    if after == [] then true
    else match after[0]
      case Opened => AllClosedOk(after[1..], depth + 1)
      case Wrote(_) => AllClosedOk(after[1..], depth)
      case Closed(ok) => if depth > 0 then AllClosedOk(after[1..], depth - 1) else ok && AllClosedOk(after[1..], 0)
  }

  /** The writes of `t` all of whose enclosing levels end with success, when `after` is what follows `t`. */
  function Survivors(t: seq<Event>, after: seq<Event>): Contents {
    if t == [] then []
    else if t[0].Wrote? && AllClosedOk(t[1..] + after, 0) then [t[0].w] + Survivors(t[1..], after)
    else Survivors(t[1..], after)
  }

  lemma ClosedFirst(e: Event, t: seq<Event>, depth: nat)
    ensures AllClosedOk([e] + t, depth)
         == match e
            case Opened => AllClosedOk(t, depth + 1)
            case Wrote(_) => AllClosedOk(t, depth)
            case Closed(ok) => if depth > 0 then AllClosedOk(t, depth - 1) else ok && AllClosedOk(t, 0)
  {
    assert ([e] + t)[1..] == t;
  }

  lemma NestedTrace(p: Program, next: Program, after: seq<Event>)
    requires p.Nested? && p.opens && next == Next(p, EndOf(p.body))
    ensures Trace(p) + after == [Opened] + (Trace(p.body) + ([Closed(EndOf(p.body) == Ok)] + (Trace(next) + after)))
  {
    var close, t, rest := [Closed(EndOf(p.body) == Ok)], Trace(p.body), Trace(next);
    assert Trace(p) == [Opened] + (t + (close + rest));
    assert [Opened] + (t + (close + rest)) + after == [Opened] + (t + (close + (rest + after)));
  }

  /** A run closes every level that it opens. */
  lemma {:induction false} TraceIsBalanced(p: Program, after: seq<Event>, depth: nat)
    ensures AllClosedOk(Trace(p) + after, depth) == AllClosedOk(after, depth)
    decreases p
  {
    match p
    case Return(_) =>
      assert Trace(p) + after == after;
    case Write(w, next) =>
      assert Trace(p) + after == [Wrote(w)] + (Trace(next) + after);
      ClosedFirst(Wrote(w), Trace(next) + after, depth);
      TraceIsBalanced(next, after, depth);
    case Elsewhere(_, next) =>
      TraceIsBalanced(next, after, depth);
    case Nested(body, opens, _, _, _, _) =>
      if opens {
        var next, close := Next(p, EndOf(body)), Closed(EndOf(body) == Ok);
        NestedTrace(p, next, after);
        ClosedFirst(Opened, Trace(body) + ([close] + (Trace(next) + after)), depth);
        TraceIsBalanced(body, [close] + (Trace(next) + after), depth + 1);
        ClosedFirst(close, Trace(next) + after, depth + 1);
        TraceIsBalanced(next, after, depth);
      } else {
        TraceIsBalanced(p.onError, after, depth);
      }
  }

  lemma {:induction false} SurvivorsSplit(a: seq<Event>, b: seq<Event>, after: seq<Event>)
    ensures Survivors(a + b, after) == Survivors(a, b + after) + Survivors(b, after)
  {
    if a == [] {
      assert a + b == b;
    } else {
      assert (a + b)[1..] == a[1..] + b;
      assert a[1..] + b + after == a[1..] + (b + after);
      SurvivorsSplit(a[1..], b, after);
    }
  }

  /** Inside a level that fails nothing survives. */
  lemma {:induction false} NothingSurvives(p: Program, after: seq<Event>)
    requires !AllClosedOk(after, 0)
    ensures Survivors(Trace(p), after) == []
    decreases p
  {
    match p
    case Return(_) =>
    case Write(w, next) =>
      assert Trace(p)[1..] == Trace(next);
      TraceIsBalanced(next, after, 0);
      NothingSurvives(next, after);
    case Elsewhere(_, next) =>
      NothingSurvives(next, after);
    case Nested(body, opens, _, _, _, _) =>
      var next := if opens then Next(p, EndOf(body)) else p.onError;
      NothingSurvives(next, after);
      if opens {
        SurvivorsOfNested(p, next, after);
        TraceIsBalanced(next, after, 0);
        assert ([Closed(EndOf(body) == Ok)] + (Trace(next) + after))[1..] == Trace(next) + after;
        NothingSurvives(body, [Closed(EndOf(body) == Ok)] + (Trace(next) + after));
      }
  }

  lemma SurvivorsOfNested(p: Program, next: Program, after: seq<Event>)
    requires p.Nested? && p.opens && next == Next(p, EndOf(p.body))
    ensures var close := Closed(EndOf(p.body) == Ok);
            Survivors(Trace(p), after)
            == Survivors(Trace(p.body), [close] + (Trace(next) + after)) + Survivors(Trace(next), after)
  {
    var close, body, rest := [Closed(EndOf(p.body) == Ok)], Trace(p.body), Trace(next);
    assert Trace(p) == [Opened] + (body + (close + rest));
    SurvivorsSplit([Opened], body + (close + rest), after);
    SurvivorsSplit(body, close + rest, after);
    SurvivorsSplit(close, rest, after);
    assert close + rest + after == close + (rest + after);
    assert Survivors([Opened], body + (close + rest) + after) == [];
    assert Survivors(close, rest + after) == [];
  }

  /** By the book, exactly the writes survive all of whose enclosing levels succeed, in the order in which they were made. */
  lemma {:induction false} MeaningIsSurvivors(p: Program, db: Contents, after: seq<Event>)
    requires AllClosedOk(after, 0)
    ensures Meaning(p, db) == (db + Survivors(Trace(p), after), EndOf(p))
    decreases p
  {
    match p
    case Return(_) =>
      assert db + [] == db;
    case Write(w, next) =>
      assert Trace(p)[1..] == Trace(next);
      TraceIsBalanced(next, after, 0);
      MeaningIsSurvivors(next, db + [w], after);
      assert db + [w] + Survivors(Trace(next), after) == db + ([w] + Survivors(Trace(next), after));
    case Elsewhere(_, next) =>
      MeaningIsSurvivors(next, db, after);
    case Nested(body, opens, _, _, _, _) =>
      if !opens {
        MeaningIsSurvivors(p.onError, db, after);
      } else {
        NestedIsSurvivors(p, db, after);
      }
  }

  lemma {:induction false} NestedIsSurvivors(p: Program, db: Contents, after: seq<Event>)
    requires AllClosedOk(after, 0) && p.Nested? && p.opens
    ensures Meaning(p, db) == (db + Survivors(Trace(p), after), EndOf(p))
    decreases p, 0
  {
    var next, ok := Next(p, EndOf(p.body)), EndOf(p.body) == Ok;
    var close := [Closed(ok)] + (Trace(next) + after);
    assert close[1..] == Trace(next) + after;
    TraceIsBalanced(next, after, 0);
    SurvivorsOfNested(p, next, after);
    MeaningIsSurvivors(p.body, db, []);
    if ok {
      MeaningIsSurvivors(p.body, db, close);
      var inner := Survivors(Trace(p.body), close);
      MeaningIsSurvivors(next, db + inner, after);
      assert db + inner + Survivors(Trace(next), after) == db + (inner + Survivors(Trace(next), after));
    } else {
      NothingSurvives(p.body, close);
      MeaningIsSurvivors(next, db, after);
      assert [] + Survivors(Trace(next), after) == Survivors(Trace(next), after);
    }
  }

  /** The outermost level is a level like the others, closed by its commit. */
  lemma TopIsSurvivors(p: Program, db: Contents, begins: bool, commits: bool)
    ensures var committed := begins && EndOf(p) == Ok && commits;
            TopMeaning(p, db, begins, commits).0
            == db + if begins then Survivors(Trace(p), [Closed(committed)]) else []
  {
    var committed := begins && EndOf(p) == Ok && commits;
    MeaningIsSurvivors(p, db, []);
    assert db + [] == db;
    if committed {
      MeaningIsSurvivors(p, db, [Closed(true)]);
    } else if begins {
      NothingSurvives(p, [Closed(false)]);
    }
  }

  /**
   The outermost call succeeds if and only if the callback does and the database begins and commits. How a callback
   ended that did not succeed is passed on as it is, and a refusal of the database is an error.
   */
  lemma TopTellsOutcome(p: Program, db: Contents, begins: bool, commits: bool)
    ensures var (after, o) := TopMeaning(p, db, begins, commits);
            && (o == Ok <==> begins && commits && EndOf(p) == Ok)
            && (begins && EndOf(p) != Ok ==> o == EndOf(p))
            && (!begins || (!commits && EndOf(p) == Ok) ==> o.Error?)
            && (o != Ok ==> after == db)
            && (o == Ok ==> after == db + Survivors(Trace(p), []))
  {
    MeaningIsSurvivors(p, db, []);
  }
}

/** The savepoint stack that carries out nested transactions. */
module Savepoints {
  import opened Transactions

  /** A savepoint is known by its number; `saved` is what the transaction saw when it was set. */
  datatype Savepoint = Savepoint(id: nat, saved: Contents)

  /** Numbers grow from the bottom of the stack to the top, and none is above the last number given out. */
  ghost predicate StackOk(stack: seq<Savepoint>, last: nat) {
    && (forall i :: 0 <= i < |stack| ==> stack[i].id <= last)
    && (forall i, j :: 0 <= i < j < |stack| ==> stack[i].id < stack[j].id)
  }

  /** `after` is `before` with savepoints on top of it that were set later; they are left over. */
  ghost predicate OnlyLeftovers(before: seq<Savepoint>, after: seq<Savepoint>, last: nat) {
    && |before| <= |after| && after[..|before|] == before
    && forall i :: |before| <= i < |after| ==> last < after[i].id
  }

  /** The position of the topmost savepoint with this number, or the height of the stack. */
  function Topmost(stack: seq<Savepoint>, id: nat): (i: nat)
    ensures i <= |stack|
    ensures i < |stack| ==> stack[i].id == id
    ensures forall j :: 0 <= j < |stack| && (i == |stack| || i < j) ==> stack[j].id != id
  {
    if stack == [] then 0
    else if stack[|stack| - 1].id == id then |stack| - 1
    else
      var i := Topmost(stack[..|stack| - 1], id);
      if i == |stack| - 1 then |stack| else i
  }

  /** The database: its durable contents, and the transaction that is running on it. */
  class Engine {
    var committed: Contents
    var working: Contents
    var stack: seq<Savepoint>
    var inTransaction: bool
    var savepointSeq: nat

    constructor (contents: Contents)
      ensures committed == contents && !inTransaction && savepointSeq == 0
    {
      committed, working, stack, inTransaction, savepointSeq := contents, contents, [], false, 0;
    }

    /** SAVEPOINT. */
    method Set(id: nat)
      modifies this`stack
      ensures stack == old(stack) + [Savepoint(id, working)]
    {
      stack := stack + [Savepoint(id, working)];
    }

    /** ROLLBACK TO: back to what was saved; the savepoint stays, those above it go. */
    method RollbackTo(id: nat) returns (ok: bool)
      modifies this`working, this`stack
      ensures var i := Topmost(old(stack), id);
              if ok then i < |old(stack)| && working == old(stack)[i].saved && stack == old(stack)[..i + 1]
              else i == |old(stack)| && working == old(working) && stack == old(stack)
    {
      var i := Topmost(stack, id);
      ok := i < |stack|;
      if ok {
        working := stack[i].saved;
        stack := stack[..i + 1];
      }
    }

    /** RELEASE SAVEPOINT: the savepoint and those above it go, the contents stay. */
    method Release(id: nat) returns (ok: bool)
      modifies this`stack
      ensures var i := Topmost(old(stack), id);
              if ok then i < |old(stack)| && stack == old(stack)[..i] else i == |old(stack)| && stack == old(stack)
    {
      var i := Topmost(stack, id);
      ok := i < |stack|;
      if ok {
        stack := stack[..i];
      }
    }

    /** Runs a callback inside the running transaction. */
    method Run(p: Program) returns (o: Outcome)
      requires inTransaction && StackOk(stack, savepointSeq)
      modifies this`working, this`stack, this`savepointSeq
      ensures (working, o) == Meaning(p, old(working))
      ensures StackOk(stack, savepointSeq) && savepointSeq >= old(savepointSeq)
      ensures OnlyLeftovers(old(stack), stack, old(savepointSeq))
      decreases p, 0
    {
      match p {
        case Return(outcome) =>
          o := outcome;
        case Write(w, next) =>
          working := working + [w];
          o := Run(next);
        case Elsewhere(taken, next) =>
          savepointSeq := savepointSeq + taken;
          o := Run(next);
        case Nested(body, opens, releases, onOk, onError, onPanic) =>
          var inner := NestedTransaction(body, opens, releases);
          ghost var middle, last := stack, savepointSeq;
          match inner {
            case Ok => o := Run(onOk);
            case Error(_) => o := Run(onError);
            case Panicked(_) => o := Run(onPanic);
          }
          LeftoversJoin(old(stack), middle, stack, old(savepointSeq), last);
      }
    }

    /** `WithTransaction` inside a transaction; a level that does not succeed leaves what was there before it. */
    method NestedTransaction(body: Program, opens: bool, releases: bool) returns (o: Outcome)
      requires inTransaction && StackOk(stack, savepointSeq)
      modifies this`working, this`stack, this`savepointSeq
      ensures o == if opens then EndOf(body) else Error(NO_SAVEPOINT)
      ensures o == Ok ==> working == old(working) + Survivors(Trace(body), [])
      ensures o == if opens then Meaning(body, old(working)).1 else Error(NO_SAVEPOINT)
      ensures working == if o == Ok then Meaning(body, old(working)).0 else old(working)
      ensures StackOk(stack, savepointSeq) && savepointSeq >= old(savepointSeq)
      ensures OnlyLeftovers(old(stack), stack, old(savepointSeq))
      decreases body, 2
    {
      o := BetweenSavepoints(body, opens, releases);
      MeaningIsSurvivors(body, old(working), []);
    }

    /** The callback between a savepoint and its release or rollback. */
    method BetweenSavepoints(body: Program, opens: bool, releases: bool) returns (o: Outcome)
      requires inTransaction && StackOk(stack, savepointSeq)
      modifies this`working, this`stack, this`savepointSeq
      ensures o == if opens then Meaning(body, old(working)).1 else Error(NO_SAVEPOINT)
      ensures working == if o == Ok then Meaning(body, old(working)).0 else old(working)
      ensures StackOk(stack, savepointSeq) && savepointSeq >= old(savepointSeq)
      ensures OnlyLeftovers(old(stack), stack, old(savepointSeq))
      decreases body, 1
    {
      savepointSeq := savepointSeq + 1;
      var id := savepointSeq;
      if !opens {
        return Error(NO_SAVEPOINT);
      }
      ghost var below, contents := stack, working;
      Set(id);
      ghost var atStart := stack;
      o := Run(body);
      OwnSavepoint(below, atStart, stack, id, contents);
      match o {
        case Panicked(_) =>
          var _ := RollbackTo(id);
        case Error(_) =>
          var _ := RollbackTo(id);
        case Ok =>
          if releases {
            var _ := Release(id);
          }
      }
    }

    /** The outermost `WithTransaction`. */
    method WithTransaction(body: Program, begins: bool, commits: bool) returns (o: Outcome)
      requires !inTransaction
      modifies this
      ensures (committed, o) == TopMeaning(body, old(committed), begins, commits)
      ensures !inTransaction && savepointSeq >= old(savepointSeq)
      ensures o == Ok <==> begins && commits && EndOf(body) == Ok
      ensures begins && EndOf(body) != Ok ==> o == EndOf(body)
      ensures !begins || (!commits && EndOf(body) == Ok) ==> o.Error?
      ensures committed == old(committed) + if o == Ok then Survivors(Trace(body), []) else []
    {
      TopTellsOutcome(body, committed, begins, commits);
      if !begins {
        return Error(NO_SAVEPOINT);
      }
      working, stack, inTransaction := committed, [], true;
      o := Run(body);
      inTransaction := false;
      if o == Ok {
        if commits {
          committed := working;
        } else {
          o := Error(NO_SAVEPOINT);
        }
      }
    }
  }

  lemma LeftoversJoin(a: seq<Savepoint>, b: seq<Savepoint>, c: seq<Savepoint>, last: nat, last': nat)
    requires OnlyLeftovers(a, b, last) && OnlyLeftovers(b, c, last') && last <= last'
    ensures OnlyLeftovers(a, c, last)
  {
    assert c[..|a|] == c[..|b|][..|a|];
    assert forall i :: |a| <= i < |b| ==> c[i] == c[..|b|][i];
  }

  /** Whatever is left over above it, a level finds its own savepoint, with what was there before it. */
  lemma OwnSavepoint(below: seq<Savepoint>, atStart: seq<Savepoint>, stack: seq<Savepoint>, id: nat, contents: Contents)
    requires atStart == below + [Savepoint(id, contents)] && OnlyLeftovers(atStart, stack, id)
    ensures Topmost(stack, id) == |below| < |stack| && stack[|below|].saved == contents
    ensures stack[..|below|] == below && stack[..|below| + 1] == atStart
  {
    assert stack[|below|] == stack[..|atStart|][|below|];
    assert stack[..|below|] == stack[..|atStart|][..|below|];
  }
}
