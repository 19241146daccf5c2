// Route paths as the router reads them. Each `char` of a string stands for one byte.
//
// A registered path such as "/users/:id/files/:name" is stored under its shape,
// "/users/:/files/:": every parameter name is cut out and nothing after a `*` is kept.
module RoutePaths {
  const PARAM_LABEL: char := ':'
  const ANY_LABEL: char := '*'

  predicate IsMark(c: char) {
    c == PARAM_LABEL || c == ANY_LABEL
  }

  /** The string has neither a parameter nor an any mark. */
  predicate IsPlain(s: string) {
    forall i :: 0 <= i < |s| ==> !IsMark(s[i])
  }

  /** The number of bytes before the next slash, or before the end. */
  function SegmentLength(s: string): (n: nat)
    ensures n <= |s|
    ensures n < |s| ==> s[n] == '/'
    ensures '/' !in s[..n]
  {
    if s == "" || s[0] == '/' then 0 else 1 + SegmentLength(s[1..])
  }

  function IndexOf<T(==)>(s: seq<T>, c: T): (i: nat)
    ensures i <= |s| && c !in s[..i]
    ensures i < |s| <==> c in s
    ensures i < |s| ==> s[i] == c
  {
    if s == [] || s[0] == c then 0 else 1 + IndexOf(s[1..], c)
  }

  lemma {:induction false} IndexOfFirst<T>(s: seq<T>, c: T, i: nat)
    requires i < |s| && s[i] == c && c !in s[..i]
    ensures IndexOf(s, c) == i
  {
    if i > 0 {
      assert s[0] == s[..i][0];
      assert s[1..][..i - 1] == s[..i][1..];
      IndexOfFirst(s[1..], c, i - 1);
    }
  }

  /** The number of parameters, any marks included. */
  function CountMarks(s: string): nat {
    if s == "" then 0 else CountMarks(s[..|s| - 1]) + if IsMark(s[|s| - 1]) then 1 else 0
  }

  lemma PlainSuffix(s: string, i: nat, j: nat)
    requires i <= j <= |s| && IsPlain(s[i..])
    ensures IsPlain(s[j..])
  {
    assert s[i..][j - i..] == s[j..];
  }

  /** `\:` occurs in the path; such paths are outside the model. */
  predicate HasEscape(path: string) {
    exists i :: 0 < i < |path| && path[i - 1] == '\\' && path[i] == PARAM_LABEL
  }

  function Shape(path: string): string {
    if path == "" then ""
    else if path[0] == PARAM_LABEL then [PARAM_LABEL] + Shape(path[1 + SegmentLength(path[1..])..])
    else if path[0] == ANY_LABEL then [ANY_LABEL]
    else [path[0]] + Shape(path[1..])
  }

  function Names(path: string): seq<string> {
    if path == "" then []
    else if path[0] == PARAM_LABEL then
      var n := 1 + SegmentLength(path[1..]);
      [path[1..n]] + Names(path[n..])
    else if path[0] == ANY_LABEL then ["*"]
    else Names(path[1..])
  }

  /** A shape with the names put back behind its parameters. */
  function Named(shape: string, names: seq<string>): string {
    if shape == "" then ""
    else if shape[0] == ':' then ":" + (if names == [] then "" else names[0] + Named(shape[1..], names[1..]))
    else [shape[0]] + Named(shape[1..], if shape[0] == '*' && names != [] then names[1..] else names)
  }

  /** The path before its any mark, or all of it; marks inside parameter names do not count. */
  function KeptLength(path: string): (n: nat)
    ensures n <= |path|
  {
    if path == "" then 0
    else if path[0] == ':' then
      var k := 1 + SegmentLength(path[1..]);
      k + KeptLength(path[k..])
    else if path[0] == '*' then 1
    else 1 + KeptLength(path[1..])
  }

  ghost predicate IsTold(path: string) {
    Named(Shape(path), Names(path)) == path[..KeptLength(path)]
  }

  /** Shape and names together tell the path, up to an any mark. */
  lemma {:induction false} ShapeAndNamesTellPath(path: string)
    ensures IsTold(path)
    decreases |path|
  {
    if path != "" {
      if path[0] == PARAM_LABEL {
        ShapeAndNamesTellPath(path[1 + SegmentLength(path[1..])..]);
        ParamIsTold(path, 1 + SegmentLength(path[1..]));
      } else if path[0] == ANY_LABEL {
        AnyIsTold(path);
      } else {
        ShapeAndNamesTellPath(path[1..]);
        ByteIsTold(path);
      }
    }
  }

  lemma ParamIsTold(path: string, k: nat)
    requires path != "" && path[0] == PARAM_LABEL && k == 1 + SegmentLength(path[1..]) && IsTold(path[k..])
    ensures IsTold(path)
  {
    NamedParam(path, k);
    KeptOn(path, k, KeptLength(path[k..]));
    KeptParam(path, k);
  }

  lemma KeptParam(path: string, k: nat)
    requires path != "" && path[0] == PARAM_LABEL && k == 1 + SegmentLength(path[1..])
    ensures KeptLength(path) == k + KeptLength(path[k..])
  {
  }

  lemma AnyIsTold(path: string)
    requires path != "" && path[0] == ANY_LABEL
    ensures IsTold(path)
  {
    assert Shape(path)[1..] == "" && path[..1] == [path[0]];
  }

  lemma ByteIsTold(path: string)
    requires path != "" && !IsMark(path[0]) && IsTold(path[1..])
    ensures IsTold(path)
  {
    StaticFirst(path);
    NamedByte(path[0], Shape(path[1..]), Names(path));
    KeptOn(path, 1, KeptLength(path[1..]));
    assert path[..1] == [path[0]];
  }

  lemma NamedParam(path: string, k: nat)
    requires path != "" && path[0] == PARAM_LABEL && k == 1 + SegmentLength(path[1..])
    ensures Named(Shape(path), Names(path)) == path[..k] + Named(Shape(path[k..]), Names(path[k..]))
  {
    NamedFirst(Shape(path[k..]), path[1..k], Names(path[k..]));
    ParamFirst(path);
    MarkAndName(path, k);
    Associative(":", path[1..k], Named(Shape(path[k..]), Names(path[k..])));
  }

  lemma MarkAndName(path: string, k: nat)
    requires 0 < k <= |path| && path[0] == PARAM_LABEL
    ensures path[..k] == ":" + path[1..k]
  {
  }

  lemma NamedFirst(shape: string, name: string, names: seq<string>)
    ensures Named([PARAM_LABEL] + shape, [name] + names) == ":" + (name + Named(shape, names))
  {
    assert ([PARAM_LABEL] + shape)[1..] == shape && ([name] + names)[1..] == names;
  }

  lemma NamedByte(c: char, shape: string, names: seq<string>)
    requires !IsMark(c)
    ensures Named([c] + shape, names) == [c] + Named(shape, names)
  {
    assert ([c] + shape)[1..] == shape;
  }

  lemma KeptOn(path: string, k: nat, n: nat)
    requires k + n <= |path|
    ensures path[..k] + path[k..][..n] == path[..k + n]
  {
  }

  lemma {:induction false} NamesHaveNoSlash(path: string)
    ensures forall i :: 0 <= i < |Names(path)| ==> '/' !in Names(path)[i]
    decreases |path|
  {
    if path != "" && path[0] != ANY_LABEL {
      var k := if path[0] == PARAM_LABEL then 1 + SegmentLength(path[1..]) else 1;
      NamesHaveNoSlash(path[k..]);
      assert path[1..][..k - 1] == path[1..k];
    }
  }

  /** A path is its own as far as it is kept if it has no any mark. */
  lemma {:induction false} AllIsKept(path: string)
    requires '*' !in path
    ensures KeptLength(path) == |path|
    decreases |path|
  {
    if path != "" {
      AllIsKept(path[if path[0] == ':' then 1 + SegmentLength(path[1..]) else 1..]);
    }
  }

  function Normalize(path: string): string {
    if path == "" then "/" else if path[0] != '/' then "/" + path else path
  }

  /** A path that does not start with a slash gets one. */
  lemma NormalAddsSlash(path: string)
    ensures Normalize(path) == if path != "" && path[0] == '/' then path else "/" + path
  {
  }

  lemma {:induction false} CountMarksConcat(a: string, b: string)
    ensures CountMarks(a + b) == CountMarks(a) + CountMarks(b)
    decreases |b|
  {
    if b == "" {
      assert a + b == a;
    } else {
      var b' := b[..|b| - 1];
      CountMarksConcat(a, b');
      assert (a + b)[..|a + b| - 1] == a + b';
    }
  }

  lemma {:induction false} CountMarksPlain(s: string)
    ensures IsPlain(s) <==> CountMarks(s) == 0
  {
    if s != "" {
      var t, last := s[..|s| - 1], s[|s| - 1];
      CountMarksPlain(t);
      assert forall i :: 0 <= i < |t| ==> t[i] == s[i];
      assert IsPlain(s) <==> IsPlain(t) && !IsMark(last);
    }
  }

  lemma {:induction false} CountMarksPrefix(a: string, s: string)
    requires a <= s
    ensures CountMarks(a) <= CountMarks(s)
  {
    CountMarksConcat(a, s[|a|..]);
    assert a + s[|a|..] == s;
  }

  /** A path binds one name for each mark of its shape. */
  lemma {:induction false} NamesMatchShape(path: string)
    ensures |Names(path)| == CountMarks(Shape(path))
    decreases |path|
  {
    if path == "" {
    } else if path[0] == PARAM_LABEL {
      var n := 1 + SegmentLength(path[1..]);
      NamesMatchShape(path[n..]);
      ParamFirst(path);
      CountMarksConcat([PARAM_LABEL], Shape(path[n..]));
      MarksOfOne(PARAM_LABEL);
    } else if path[0] == ANY_LABEL {
      MarksOfOne(ANY_LABEL);
    } else {
      NamesMatchShape(path[1..]);
      StaticFirst(path);
      CountMarksConcat([path[0]], Shape(path[1..]));
      MarksOfOne(path[0]);
    }
  }

  lemma MarksOfOne(c: char)
    ensures CountMarks([c]) == if IsMark(c) then 1 else 0
  {
    assert [c][..0] == "";
  }

  // ---------------------------------------------------------------------------
  // Reading a path from left to right, erasing the parameter names on the way.

  /**
   `path` is `orig` with the names of the first parameters erased; it has been read up to `i`. The
   last parameter so far ends at `head`.
   */
  ghost predicate PathRead(orig: string, path: string, i: nat, names: seq<string>, head: string) {
    && i <= |path| && path != "" && path[0] == '/'
    && Shape(orig) == path[..i] + Shape(path[i..])
    && Names(orig) == names + Names(path[i..])
    && head <= path[..i] && IsPlain(path[|head|..i])
    && (head != "" ==> |head| < i && head[|head| - 1] == PARAM_LABEL)
  }

  lemma ReadPlain(orig: string, path: string, i: nat, names: seq<string>, head: string)
    requires PathRead(orig, path, i, names, head) && i < |path| && !IsMark(path[i])
    ensures PathRead(orig, path, i + 1, names, head)
  {
    assert path[i..][1..] == path[i + 1..];
    assert path[..i] + [path[i]] == path[..i + 1];
    assert path[|head|..i + 1] == path[|head|..i] + [path[i]];
  }

  lemma ReadParam(orig: string, path: string, i: nat, names: seq<string>, head: string, e: nat, path': string)
    requires PathRead(orig, path, i, names, head) && i < |path| && path[i] == PARAM_LABEL
    requires e == i + SegmentLength(path[i..]) && path' == path[..i + 1] + path[e..]
    ensures i < e <= |path| && 0 < i && |path'| == |path| - (e - i) + 1
    ensures path[..i] <= path'[..i + 1] == path[..i + 1]
    ensures var names' := names + [path[i + 1..e]];
            if |path'| == i + 1 then Shape(orig) == path' && Names(orig) == names'
            else PathRead(orig, path', i + 2, names', path'[..i + 1])
  {
    CutName(orig, path, i, names, head, e);
    if |path'| != i + 1 {
      ReadSlash(orig, path', i + 1, names + [path[i + 1..e]], path[..i + 1], path[e..]);
    } else {
      assert path[e..] == "" && path' == path[..i + 1];
    }
  }

  /** The slash after a parameter. */
  lemma ReadSlash(orig: string, path: string, i: nat, names: seq<string>, head: string, rest: string)
    requires path == head + rest && i == |head| > 0 && rest != "" && rest[0] == '/' && path[0] == '/'
    requires Shape(orig) == head + Shape(rest) && Names(orig) == names + Names(rest) && head[i - 1] == PARAM_LABEL
    ensures head == path[..i] && PathRead(orig, path, i + 1, names, head)
  {
    StaticFirst(rest);
    PartsAround(head, rest);
    Associative(head, ['/'], Shape(path[i + 1..]));
  }

  lemma PartsAround(head: string, rest: string)
    requires rest != ""
    ensures (head + rest)[..|head|] == head && (head + rest)[..|head| + 1] == head + [rest[0]]
    ensures (head + rest)[|head|..|head| + 1] == [rest[0]] && (head + rest)[|head| + 1..] == rest[1..]
  {
  }

  lemma Associative(a: string, b: string, c: string)
    ensures a + (b + c) == a + b + c
  {
  }

  lemma StaticFirst(path: string)
    requires path != "" && !IsMark(path[0])
    ensures Shape(path) == [path[0]] + Shape(path[1..]) && Names(path) == Names(path[1..])
  {
  }

  lemma PrefixGrows(path: string, i: nat, path': string, j: nat)
    requires i < j <= |path'| && i < |path| && path'[..i + 1] == path[..i + 1]
    ensures path[..i] <= path'[..j]
  {
    assert path'[..i + 1][..i] == path[..i];
  }

  lemma CutName(orig: string, path: string, i: nat, names: seq<string>, head: string, e: nat)
    requires PathRead(orig, path, i, names, head) && i < |path| && path[i] == PARAM_LABEL
    requires e == i + SegmentLength(path[i..])
    ensures i < e <= |path| && 0 < i && (e < |path| ==> path[e] == '/')
    ensures Shape(orig) == path[..i + 1] + Shape(path[e..]) && Names(orig) == names + [path[i + 1..e]] + Names(path[e..])
  {
    var rest := path[i..];
    ParamFirst(rest);
    var n := SegmentLength(rest);
    assert rest[n..] == path[e..] && rest[1..n] == path[i + 1..e];
    assert path[..i] + [PARAM_LABEL] == path[..i + 1];
    Associative(path[..i], [PARAM_LABEL], Shape(path[e..]));
  }

  lemma ParamFirst(path: string)
    requires path != "" && path[0] == PARAM_LABEL
    ensures var n := SegmentLength(path);
            0 < n && Shape(path) == [PARAM_LABEL] + Shape(path[n..]) && Names(path) == [path[1..n]] + Names(path[n..])
  {
    assert SegmentLength(path) == 1 + SegmentLength(path[1..]);
  }

  lemma ReadAny(orig: string, path: string, i: nat, names: seq<string>, head: string)
    requires PathRead(orig, path, i, names, head) && i < |path| && path[i] == ANY_LABEL
    ensures 0 < i && Shape(orig) == path[..i + 1] && Names(orig) == names + ["*"]
  {
    assert path[..i] + [ANY_LABEL] == path[..i + 1];
  }
}
