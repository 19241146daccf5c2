/**
 The Merkle tree of a folder, told from the set of its files. A path is the sequence of its segments;
 the first one names the root folder.
 */
module MerkleSpec {
  type Path = seq<string>

  datatype File = File(path: Path, size: nat)

  /** A digest, as a function on texts. */
  type Digest = string -> string

  // ---------------------------------------------------------------------------
  // The order of names.

  predicate Less(a: string, b: string) {
    b != "" && (a == "" || a[0] < b[0] || (a[0] == b[0] && Less(a[1..], b[1..])))
  }

  lemma {:induction false} LessIsTotal(a: string, b: string)
    ensures a == b || Less(a, b) || Less(b, a)
    ensures !(Less(a, b) && Less(b, a)) && !Less(a, a)
  {
    if a != "" && b != "" {
      LessIsTotal(a[1..], b[1..]);
      assert a == [a[0]] + a[1..] && b == [b[0]] + b[1..];
    }
    if a != "" {
      LessIsTotal(a[1..], a[1..]);
    }
  }

  lemma {:induction false} LessIsTransitive(a: string, b: string, c: string)
    requires Less(a, b) && Less(b, c)
    ensures Less(a, c)
  {
    if a != "" && a[0] == b[0] == c[0] {
      LessIsTransitive(a[1..], b[1..], c[1..]);
    }
  }

  predicate IsSorted(names: seq<string>) {
    forall i, j :: 0 <= i < j < |names| ==> Less(names[i], names[j])
  }

  function Elements(names: seq<string>): set<string> {
    set n | n in names
  }

  lemma NoElements(names: seq<string>)
    ensures Elements(names) == {} <==> names == []
  {
    if names != [] {
      assert names[0] in Elements(names);
    }
  }

  /** A set of names has one sorted enumeration at most. */
  lemma {:induction false} SortedIsUnique(a: seq<string>, b: seq<string>)
    requires IsSorted(a) && IsSorted(b) && Elements(a) == Elements(b)
    ensures a == b
  {
    NoElements(a);
    NoElements(b);
    if a != [] {
      assert a[0] in Elements(b) && b[0] in Elements(a);
      LessIsTotal(a[0], b[0]);
      assert a[0] == b[0];
      LessIsTotal(a[0], a[0]);
      assert Elements(a[1..]) == Elements(a) - {a[0]} by {
        assert a == [a[0]] + a[1..];
      }
      assert Elements(b[1..]) == Elements(b) - {b[0]} by {
        assert b == [b[0]] + b[1..];
      }
      SortedIsUnique(a[1..], b[1..]);
    }
  }

  lemma {:induction false} MinimumExists(s: set<string>) returns (m: string)
    requires s != {}
    ensures m in s && forall n :: n in s ==> n == m || Less(m, n)
    decreases |s|
  {
    var x :| x in s;
    if s == {x} {
      m := x;
    } else {
      var t := s - {x};
      assert t != {} by {
        assert s == t + {x};
      }
      m := MinimumExists(t);
      LessIsTotal(m, x);
      if Less(x, m) {
        forall n | n in s && n != x ensures Less(x, n) {
          if n != m {
            LessIsTransitive(x, m, n);
          }
        }
        m := x;
      }
    }
  }

  predicate IsLeast(s: set<string>, m: string) {
    m in s && forall n :: n in s ==> n == m || Less(m, n)
  }

  ghost function Least(s: set<string>): (m: string)
    requires s != {}
    ensures IsLeast(s, m)
  {
    assert exists m :: IsLeast(s, m) by {
      var m := MinimumExists(s);
      assert IsLeast(s, m);
    }
    var m :| IsLeast(s, m);
    m
  }

  lemma PrependSorted(m: string, rest: seq<string>, s: set<string>)
    requires IsLeast(s, m) && IsSorted(rest) && Elements(rest) == s - {m}
    ensures IsSorted([m] + rest) && Elements([m] + rest) == s
  {
    var all := [m] + rest;
    forall i, j | 0 <= i < j < |all| ensures Less(all[i], all[j]) {
      assert rest[j - 1] in Elements(rest);
    }
    assert Elements(all) == {m} + Elements(rest);
  }

  ghost function SortedNames(s: set<string>): (names: seq<string>)
    ensures IsSorted(names) && Elements(names) == s
    decreases |s|
  {
    if s == {} then []
    else
      var m := Least(s);
      var rest := SortedNames(s - {m});
      PrependSorted(m, rest, s);
      [m] + rest
  }

  // ---------------------------------------------------------------------------
  // The tree of a set of files.

  /** Files lie under one root, and no path is that of a file and of a folder at once. */
  ghost predicate IsFolder(files: set<File>, root: string) {
    && (forall f :: f in files ==> |f.path| >= 2 && f.path[0] == root)
    && (forall f, g :: f in files && g in files && f.path <= g.path ==> f == g)
  }

  /** The names directly below a path. */
  function Names(files: set<File>, p: Path): set<string> {
    set f | f in files && p < f.path :: f.path[|p|]
  }

  predicate IsDir(files: set<File>, p: Path) {
    exists f :: f in files && p < f.path
  }

  ghost function Longest(files: set<File>): (n: nat)
    ensures forall f :: f in files ==> |f.path| <= n
  {
    if files == {} then 0
    else
      var f :| f in files;
      var n := Longest(files - {f});
      assert forall g :: g in files ==> g == f || g in files - {f};
      if |f.path| <= n then n else |f.path|
  }

  function Decimal(n: nat): (s: string)
    ensures s != ""
  {
    if n < 10 then [(n as char) + '0'] else Decimal(n / 10) + [((n % 10) as char) + '0']
  }

  /** One entry of the text that a folder is hashed from. */
  function EntryText(name: string, isDir: bool, size: nat, hash: string): string {
    name + [':'] + ((if isDir then "directory" else "file") + [':'] + (Decimal(size) + [':'] + (hash + [';'])))
  }

  function LeafHash(sha: Digest, name: string, size: nat): string {
    sha(name + [':'] + Decimal(size))
  }

  ghost function SizeOf(files: set<File>, p: Path): nat
    decreases Longest(files) - |p|, 2
  {
    SizeOfNames(files, p, SortedNames(Names(files, p)))
  }

  ghost function HashOf(sha: Digest, files: set<File>, p: Path): string
    decreases Longest(files) - |p|, 2
  {
    sha(TextOf(sha, files, p, SortedNames(Names(files, p))))
  }

  /** The size of the child of that name: of the file, or of all that the folder holds. */
  ghost function ChildSize(files: set<File>, p: Path, name: string): nat
    decreases Longest(files) - |p|, 0
  {
    if IsDir(files, p + [name]) then SizeOf(files, p + [name]) else FileSize(files, p + [name])
  }

  ghost function FileSize(files: set<File>, p: Path): nat {
    if exists f :: f in files && f.path == p then
      var f :| f in files && f.path == p;
      f.size
    else 0
  }

  ghost function ChildHash(sha: Digest, files: set<File>, p: Path, name: string): string
    decreases Longest(files) - |p|, 0
  {
    if IsDir(files, p + [name]) then HashOf(sha, files, p + [name])
    else LeafHash(sha, name, FileSize(files, p + [name]))
  }

  ghost function SizeOfNames(files: set<File>, p: Path, names: seq<string>): nat
    decreases Longest(files) - |p|, 1, |names|
  {
    if names == [] then 0
    else SizeOfNames(files, p, names[..|names| - 1]) + ChildSize(files, p, names[|names| - 1])
  }

  ghost function TextOf(sha: Digest, files: set<File>, p: Path, names: seq<string>): string
    decreases Longest(files) - |p|, 1, |names|
  {
    if names == [] then ""
    else
      var n := names[|names| - 1];
      TextOf(sha, files, p, names[..|names| - 1])
      + EntryText(n, IsDir(files, p + [n]), ChildSize(files, p, n), ChildHash(sha, files, p, n))
  }
}

/** Sizes add up, and equal root hashes stand for equal trees. */
module MerkleTheorems {
  import opened MerkleSpec

  // ---------------------------------------------------------------------------
  // Sizes.

  ghost function Sum(files: set<File>): nat {
    if files == {} then 0
    else
      var f :| f in files;
      f.size + Sum(files - {f})
  }

  lemma {:induction false} SumWithout(files: set<File>, x: File)
    requires x in files
    ensures Sum(files) == x.size + Sum(files - {x})
  {
    var f :| f in files && Sum(files) == f.size + Sum(files - {f});
    if f != x {
      SumWithout(files - {f}, x);
      SumWithout(files - {x}, f);
      assert files - {f} - {x} == files - {x} - {f};
    }
  }

  lemma {:induction false} SumUnion(a: set<File>, b: set<File>)
    requires a !! b
    ensures Sum(a + b) == Sum(a) + Sum(b)
  {
    if a == {} {
      assert a + b == b;
    } else {
      var x :| x in a;
      SumWithout(a, x);
      SumWithout(a + b, x);
      assert a + b - {x} == (a - {x}) + b;
      SumUnion(a - {x}, b);
    }
  }

  /** The files of a folder. */
  function Under(files: set<File>, p: Path): set<File> {
    set f | f in files && p < f.path
  }

  /** Those that go on with one of these names. */
  function UnderNames(files: set<File>, p: Path, names: seq<string>): set<File> {
    set f | f in files && p < f.path && f.path[|p|] in names
  }

  lemma NextPath(p: Path, name: string, path: Path)
    ensures p + [name] <= path <==> p < path && path[|p|] == name
    ensures p + [name] <= path ==> path == p + [name] || p + [name] < path
  {
  }

  /** Every folder's size is the sum of the sizes of the files in it. */
  lemma {:induction false} SizeIsSum(files: set<File>, root: string, p: Path)
    requires IsFolder(files, root)
    ensures SizeOf(files, p) == Sum(Under(files, p))
    decreases Longest(files) - |p|, 2
  {
    var names := SortedNames(Names(files, p));
    SizeOfNamesIsSum(files, root, p, names);
    forall f | f in Under(files, p) ensures f.path[|p|] in names {
      assert f.path[|p|] in Elements(names);
    }
    assert UnderNames(files, p, names) == Under(files, p);
  }

  lemma {:induction false} SizeOfNamesIsSum(files: set<File>, root: string, p: Path, names: seq<string>)
    requires IsFolder(files, root) && IsSorted(names) && Elements(names) <= Names(files, p)
    ensures SizeOfNames(files, p, names) == Sum(UnderNames(files, p, names))
    decreases Longest(files) - |p|, 1, |names|
  {
    if names == [] {
      assert UnderNames(files, p, names) == {};
    } else {
      var before, n := names[..|names| - 1], names[|names| - 1];
      assert names == before + [n];
      assert n in Elements(names);
      LessIsTotal(n, n);
      assert n !in before;
      assert Elements(before) <= Elements(names);
      SizeOfNamesIsSum(files, root, p, before);
      ChildSizeIsSum(files, root, p, n);
      var own := UnderNames(files, p, [n]);
      assert UnderNames(files, p, names) == UnderNames(files, p, before) + own;
      SumUnion(UnderNames(files, p, before), own);
    }
  }

  lemma {:induction false} ChildSizeIsSum(files: set<File>, root: string, p: Path, n: string)
    requires IsFolder(files, root) && n in Names(files, p)
    ensures ChildSize(files, p, n) == Sum(UnderNames(files, p, [n]))
    decreases Longest(files) - |p|, 0
  {
    var next := p + [n];
    forall f | f in files ensures f in UnderNames(files, p, [n]) <==> next <= f.path {
      NextPath(p, n, f.path);
    }
    if IsDir(files, next) {
      SizeIsSum(files, root, next);
      assert UnderNames(files, p, [n]) == Under(files, next);
    } else {
      var f :| f in files && p < f.path && f.path[|p|] == n;
      NextPath(p, n, f.path);
      assert f.path == next && UnderNames(files, p, [n]) == {f};
      SumOfOne(f);
      OneFile(files, root, f);
    }
  }

  lemma SumOfOne(f: File)
    ensures Sum({f}) == f.size
  {
    SumWithout({f}, f);
    assert {f} - {f} == {};
  }

  lemma OneFile(files: set<File>, root: string, f: File)
    requires IsFolder(files, root) && f in files
    ensures FileSize(files, f.path) == f.size
  {
    var g :| g in files && g.path == f.path && FileSize(files, f.path) == g.size;
    assert f.path <= g.path;
  }

  // ---------------------------------------------------------------------------
  // Reading an entry back.

  predicate IsFree(s: string) {
    ':' !in s && ';' !in s
  }

  /** A digest without collisions, written without the two separators. */
  ghost predicate IsHash(sha: Digest) {
    && (forall x, y :: sha(x) == sha(y) ==> x == y)
    && forall x :: IsFree(sha(x))
  }

  lemma CutUnique(a: string, x: string, b: string, y: string, c: char)
    requires a + [c] + x == b + [c] + y && c !in a && c !in b
    ensures a == b && x == y
  {
    var s := a + [c] + x;
    assert s[|a|] == c && s[|b|] == c;
    assert forall i :: 0 <= i < |a| ==> s[i] == a[i];
    assert forall i :: 0 <= i < |b| ==> s[i] == b[i];
    assert s[..|a|] == a && s[..|b|] == b && s[|a| + 1..] == x && s[|b| + 1..] == y;
  }

  lemma {:induction false} DecimalIsFree(n: nat)
    ensures IsFree(Decimal(n))
  {
    if n >= 10 {
      DecimalIsFree(n / 10);
    }
  }

  lemma {:induction false} DecimalIsInjective(m: nat, n: nat)
    requires Decimal(m) == Decimal(n)
    ensures m == n
  {
    if m >= 10 && n >= 10 {
      var a, b := Decimal(m), Decimal(n);
      assert a[..|a| - 1] == Decimal(m / 10) && b[..|b| - 1] == Decimal(n / 10);
      assert a[|a| - 1] == b[|b| - 1];
      DecimalIsInjective(m / 10, n / 10);
    }
  }

  lemma Associative(a: string, b: string, c: string)
    ensures a + b + c == a + (b + c)
  {
  }

  lemma EntryThen(name: string, isDir: bool, size: nat, hash: string, rest: string)
    ensures EntryText(name, isDir, size, hash) + rest
         == name + [':'] + ((if isDir then "directory" else "file") + [':'] + (Decimal(size) + [':'] + (hash + [';'] + rest)))
  {
    var kind := if isDir then "directory" else "file";
    var e3 := hash + [';'];
    var e2 := Decimal(size) + [':'] + e3;
    var e1 := kind + [':'] + e2;
    Associative(name + [':'], e1, rest);
    Associative(kind + [':'], e2, rest);
    Associative(Decimal(size) + [':'], e3, rest);
  }

  /** A text that starts with an entry tells all of the entry. */
  lemma EntryIsReadable(n: string, d: bool, s: nat, h: string, x: string, n': string, d': bool, s': nat, h': string, x': string)
    requires EntryText(n, d, s, h) + x == EntryText(n', d', s', h') + x'
    requires IsFree(n) && IsFree(n') && IsFree(h) && IsFree(h')
    ensures n == n' && d == d' && s == s' && h == h' && x == x'
  {
    EntryThen(n, d, s, h, x);
    EntryThen(n', d', s', h', x');
    var k, k' := if d then "directory" else "file", if d' then "directory" else "file";
    var a3, b3 := h + [';'] + x, h' + [';'] + x';
    var a2, b2 := Decimal(s) + [':'] + a3, Decimal(s') + [':'] + b3;
    var a1, b1 := k + [':'] + a2, k' + [':'] + b2;
    CutUnique(n, a1, n', b1, ':');
    CutUnique(k, a2, k', b2, ':');
    assert |"directory"| == 9 && |"file"| == 4;
    DecimalIsFree(s);
    DecimalIsFree(s');
    CutUnique(Decimal(s), a3, Decimal(s'), b3, ':');
    DecimalIsInjective(s, s');
    CutUnique(h, x, h', x', ';');
  }

  // ---------------------------------------------------------------------------
  // Equal roots, equal trees.

  /** What lies below a path: the rest of each path, and the size. */
  ghost function Content(files: set<File>, p: Path): set<(Path, nat)> {
    set f | f in files && p < f.path :: (f.path[|p|..], f.size)
  }

  /** No segment after the first one holds a separator of the entries. */
  ghost predicate CleanNames(files: set<File>) {
    forall f, i :: f in files && 1 <= i < |f.path| ==> IsFree(f.path[i])
  }

  lemma TextFirst(sha: Digest, files: set<File>, p: Path, names: seq<string>)
    requires names != []
    ensures var n := names[0];
            TextOf(sha, files, p, names)
            == EntryText(n, IsDir(files, p + [n]), ChildSize(files, p, n), ChildHash(sha, files, p, n))
               + TextOf(sha, files, p, names[1..])
    decreases |names|
  {
    if |names| == 1 {
      assert names[..0] == [] && names[1..] == [];
      var e := TextOf(sha, files, p, names);
      assert "" + e == e && e + "" == e;
    } else {
      var before, n := names[..|names| - 1], names[|names| - 1];
      TextFirst(sha, files, p, before);
      assert before[1..] == names[1..][..|names[1..]| - 1] && before[0] == names[0];
      Associative(EntryText(names[0], IsDir(files, p + [names[0]]), ChildSize(files, p, names[0]), ChildHash(sha, files, p, names[0])),
                  TextOf(sha, files, p, before[1..]),
                  EntryText(n, IsDir(files, p + [n]), ChildSize(files, p, n), ChildHash(sha, files, p, n)));
    }
  }

  /** The child of that name looks alike in both trees, as far as the text tells. */
  ghost predicate Alike(sha: Digest, a: set<File>, p: Path, b: set<File>, q: Path, n: string) {
    && IsDir(a, p + [n]) == IsDir(b, q + [n]) && ChildSize(a, p, n) == ChildSize(b, q, n)
    && ChildHash(sha, a, p, n) == ChildHash(sha, b, q, n)
  }

  lemma HashIsFree(sha: Digest, files: set<File>, p: Path, n: string)
    requires IsHash(sha)
    ensures IsFree(ChildHash(sha, files, p, n))
  {
  }

  lemma {:induction false} TextsTell(sha: Digest, a: set<File>, p: Path, ns: seq<string>, b: set<File>, q: Path, ms: seq<string>)
    requires IsHash(sha) && TextOf(sha, a, p, ns) == TextOf(sha, b, q, ms)
    requires (forall n :: n in ns ==> IsFree(n)) && forall m :: m in ms ==> IsFree(m)
    ensures ns == ms && forall n :: n in ns ==> Alike(sha, a, p, b, q, n)
    decreases |ns|
  {
    if ns != [] {
      TextFirst(sha, a, p, ns);
    }
    if ms != [] {
      TextFirst(sha, b, q, ms);
    }
    if ns != [] && ms != [] {
      var n, m := ns[0], ms[0];
      HashIsFree(sha, a, p, n);
      HashIsFree(sha, b, q, m);
      EntryIsReadable(n, IsDir(a, p + [n]), ChildSize(a, p, n), ChildHash(sha, a, p, n), TextOf(sha, a, p, ns[1..]),
                      m, IsDir(b, q + [m]), ChildSize(b, q, m), ChildHash(sha, b, q, m), TextOf(sha, b, q, ms[1..]));
      TextsTell(sha, a, p, ns[1..], b, q, ms[1..]);
      SameParts(ns, ms);
    }
  }

  lemma SameParts(ns: seq<string>, ms: seq<string>)
    requires ns != [] && ms != [] && ns[0] == ms[0] && ns[1..] == ms[1..]
    ensures ns == ms && forall n :: n in ns ==> n == ns[0] || n in ns[1..]
  {
    assert ns == [ns[0]] + ns[1..] && ms == [ms[0]] + ms[1..];
  }

  lemma {:induction false} TextsOfAlike(sha: Digest, a: set<File>, p: Path, b: set<File>, q: Path, names: seq<string>)
    requires forall n :: n in names ==> Alike(sha, a, p, b, q, n)
    ensures TextOf(sha, a, p, names) == TextOf(sha, b, q, names) && SizeOfNames(a, p, names) == SizeOfNames(b, q, names)
    decreases |names|
  {
    if names != [] {
      TextsOfAlike(sha, a, p, b, q, names[..|names| - 1]);
      assert Alike(sha, a, p, b, q, names[|names| - 1]);
    }
  }

  lemma NamesAreClean(files: set<File>, p: Path, n: string)
    requires CleanNames(files) && p != [] && n in Names(files, p)
    ensures IsFree(n)
  {
  }

  /** Equal content below two paths shows in the same names, with the same kind of child. */
  lemma ContentShows(a: set<File>, p: Path, b: set<File>, q: Path, n: string)
    requires Content(a, p) == Content(b, q)
    ensures n in Names(a, p) ==> n in Names(b, q)
    ensures IsDir(a, p + [n]) ==> IsDir(b, q + [n])
    ensures Content(a, p + [n]) <= Content(b, q + [n])
  {
    forall f | f in a && p < f.path && f.path[|p|] == n
      ensures exists g :: g in b && q < g.path && g.path[|q|..] == f.path[|p|..] && g.size == f.size && q + [n] <= g.path
    {
      assert (f.path[|p|..], f.size) in Content(b, q);
      var g :| g in b && q < g.path && (g.path[|q|..], g.size) == (f.path[|p|..], f.size);
      assert g.path[|q|] == g.path[|q|..][0] == f.path[|p|..][0];
      NextPath(q, n, g.path);
    }
    forall f | f in a && p + [n] < f.path ensures (f.path[|p| + 1..], f.size) in Content(b, q + [n]) {
      NextPath(p, n, f.path);
      var g :| g in b && q < g.path && g.path[|q|..] == f.path[|p|..] && g.size == f.size && q + [n] <= g.path;
      assert f.path[|p| + 1..] == f.path[|p|..][1..] == g.path[|q|..][1..] == g.path[|q| + 1..];
      assert |g.path| - |q| == |f.path| - |p|;
      assert q + [n] < g.path;
    }
  }

  /** A file's size can be told from the content of its folder. */
  lemma FileShows(files: set<File>, root: string, p: Path, n: string)
    requires IsFolder(files, root) && n in Names(files, p) && !IsDir(files, p + [n])
    ensures ([n], FileSize(files, p + [n])) in Content(files, p)
    ensures forall s :: ([n], s) in Content(files, p) ==> s == FileSize(files, p + [n])
  {
    forall f | f in files && p < f.path && f.path[|p|] == n
      ensures f.path == p + [n] && f.path[|p|..] == [n] && f.size == FileSize(files, p + [n])
    {
      NextPath(p, n, f.path);
      OneFile(files, root, f);
    }
    var f :| f in files && p < f.path && f.path[|p|] == n;
    assert (f.path[|p|..], f.size) in Content(files, p);
  }

  /** Equal content gives equal sizes and equal hashes. */
  lemma {:induction false} EqualContentEqualHash(sha: Digest, a: set<File>, r: string, p: Path, b: set<File>, t: string, q: Path)
    requires IsFolder(a, r) && IsFolder(b, t) && Content(a, p) == Content(b, q)
    ensures SizeOf(a, p) == SizeOf(b, q) && HashOf(sha, a, p) == HashOf(sha, b, q)
    decreases Longest(a) - |p|
  {
    var names := SortedNames(Names(a, p));
    forall n ensures n in Names(a, p) <==> n in Names(b, q) {
      ContentShows(a, p, b, q, n);
      ContentShows(b, q, a, p, n);
    }
    assert Names(a, p) == Names(b, q);
    forall n | n in names ensures Alike(sha, a, p, b, q, n) {
      assert n in Elements(names);
      ContentShows(a, p, b, q, n);
      ContentShows(b, q, a, p, n);
      if IsDir(a, p + [n]) {
        EqualContentEqualHash(sha, a, r, p + [n], b, t, q + [n]);
      } else {
        FileShows(a, r, p, n);
        FileShows(b, t, q, n);
      }
    }
    TextsOfAlike(sha, a, p, b, q, names);
  }

  /** Where names and children look alike and folders have equal content, the content is equal. */
  lemma ContentFromChildren(sha: Digest, a: set<File>, r: string, p: Path, b: set<File>, t: string, q: Path)
    requires IsHash(sha) && IsFolder(a, r) && IsFolder(b, t) && Names(a, p) == Names(b, q)
    requires forall n :: n in Names(a, p) ==> Alike(sha, a, p, b, q, n)
    requires forall n :: n in Names(a, p) && IsDir(a, p + [n]) ==> Content(a, p + [n]) == Content(b, q + [n])
    ensures Content(a, p) <= Content(b, q)
  {
    forall f | f in a && p < f.path ensures (f.path[|p|..], f.size) in Content(b, q) {
      var n := f.path[|p|];
      assert n in Names(a, p) && Alike(sha, a, p, b, q, n);
      NextPath(p, n, f.path);
      if f.path == p + [n] {
        assert !IsDir(a, p + [n]);
        OneFile(a, r, f);
        FileShows(b, t, q, n);
        assert f.path[|p|..] == [n];
      } else {
        ThroughFolder(a, p, b, q, n, f);
      }
    }
  }

  lemma ThroughFolder(a: set<File>, p: Path, b: set<File>, q: Path, n: string, f: File)
    requires f in a && p + [n] < f.path && Content(a, p + [n]) == Content(b, q + [n])
    ensures (f.path[|p|..], f.size) in Content(b, q)
  {
    assert (f.path[|p + [n]|..], f.size) in Content(b, q + [n]);
    var g :| g in b && q + [n] < g.path && (g.path[|q + [n]|..], g.size) == (f.path[|p + [n]|..], f.size);
    NextPath(p, n, f.path);
    NextPath(q, n, g.path);
    HeadAndTail(f.path, |p|);
    HeadAndTail(g.path, |q|);
  }

  lemma HeadAndTail(path: Path, k: nat)
    requires k < |path|
    ensures path[k..] == [path[k]] + path[k + 1..]
  {
  }

  /** Equal hashes stand for equal content. */
  lemma {:induction false} EqualHashEqualContent(sha: Digest, a: set<File>, r: string, p: Path, b: set<File>, t: string, q: Path)
    requires IsHash(sha) && IsFolder(a, r) && IsFolder(b, t) && CleanNames(a) && CleanNames(b) && p != [] && q != []
    requires HashOf(sha, a, p) == HashOf(sha, b, q)
    ensures Content(a, p) == Content(b, q)
    decreases Longest(a) - |p|
  {
    var ns, ms := SortedNames(Names(a, p)), SortedNames(Names(b, q));
    forall n | n in ns ensures IsFree(n) {
      assert n in Elements(ns);
      NamesAreClean(a, p, n);
    }
    forall m | m in ms ensures IsFree(m) {
      assert m in Elements(ms);
      NamesAreClean(b, q, m);
    }
    TextsTell(sha, a, p, ns, b, q, ms);
    assert Names(a, p) == Elements(ns) == Elements(ms) == Names(b, q);
    forall n | n in Names(a, p) ensures Alike(sha, a, p, b, q, n) && Alike(sha, b, q, a, p, n) {
      assert n in Elements(ns);
    }
    forall n | n in Names(a, p) && IsDir(a, p + [n]) ensures Content(a, p + [n]) == Content(b, q + [n]) {
      assert Alike(sha, a, p, b, q, n);
      EqualHashEqualContent(sha, a, r, p + [n], b, t, q + [n]);
    }
    ContentFromChildren(sha, a, r, p, b, t, q);
    ContentFromChildren(sha, b, t, q, a, r, p);
  }

  /** Two folders have the same root hash if and only if they hold the same files, by path below the root and size. */
  lemma RootHashStandsForTree(sha: Digest, a: set<File>, r: string, b: set<File>, t: string)
    requires IsHash(sha) && IsFolder(a, r) && IsFolder(b, t) && CleanNames(a) && CleanNames(b)
    ensures HashOf(sha, a, [r]) == HashOf(sha, b, [t]) <==> Content(a, [r]) == Content(b, [t])
  {
    if Content(a, [r]) == Content(b, [t]) {
      EqualContentEqualHash(sha, a, r, [r], b, t, [t]);
    } else if HashOf(sha, a, [r]) == HashOf(sha, b, [t]) {
      EqualHashEqualContent(sha, a, r, [r], b, t, [t]);
    }
  }

  // ---------------------------------------------------------------------------
  // Such a digest.

  /** Writes the two separators, and the letter that announces them, as two letters. */
  function Escaped(c: char): string {
    if c == ':' then "xa" else if c == ';' then "xb" else if c == 'x' then "xx" else [c]
  }

  function Escape(s: string): string {
    if s == "" then "" else Escaped(s[0]) + Escape(s[1..])
  }

  lemma {:induction false} EscapeIsFree(s: string)
    ensures IsFree(Escape(s))
  {
    if s != "" {
      EscapeIsFree(s[1..]);
    }
  }

  lemma EscapedTells(c: char, x: string, d: char, y: string)
    requires Escaped(c) + x == Escaped(d) + y
    ensures c == d && x == y
  {
    var s := Escaped(c) + x;
    assert s[0] == Escaped(c)[0] == Escaped(d)[0];
    assert s[0] == 'x' ==> s[1] == Escaped(c)[1] == Escaped(d)[1];
    assert s[|Escaped(c)|..] == x && s[|Escaped(d)|..] == y;
  }

  lemma {:induction false} EscapeTells(s: string, t: string)
    requires Escape(s) == Escape(t)
    ensures s == t
    decreases |s|
  {
    if s != "" && t != "" {
      EscapedTells(s[0], Escape(s[1..]), t[0], Escape(t[1..]));
      EscapeTells(s[1..], t[1..]);
      assert s == [s[0]] + s[1..] && t == [t[0]] + t[1..];
    }
  }

  /** There are digests without collisions and without separators. */
  lemma EscapeIsHash()
    ensures IsHash(Escape)
  {
    forall x, y | Escape(x) == Escape(y) ensures x == y {
      EscapeTells(x, y);
    }
    forall x ensures IsFree(Escape(x)) {
      EscapeIsFree(x);
    }
  }

  // ---------------------------------------------------------------------------
  // The texts, as they are written.

  /** One name comes before another if it ends where the other goes on, or has the smaller letter where they first differ. */
  predicate ComesFirst(a: string, b: string, i: nat) {
    i <= |a| && i < |b| && a[..i] == b[..i] && (i < |a| ==> a[i] < b[i])
  }

  lemma {:induction false} LessIsLexicographic(a: string, b: string)
    ensures Less(a, b) <==> exists i: nat :: ComesFirst(a, b, i)
  {
    if a == "" {
      assert b != "" ==> ComesFirst(a, b, 0);
    } else if b != "" {
      LessIsLexicographic(a[1..], b[1..]);
      if Less(a, b) {
        if a[0] < b[0] {
          assert ComesFirst(a, b, 0);
        } else {
          var i: nat :| ComesFirst(a[1..], b[1..], i);
          assert a[..i + 1] == [a[0]] + a[1..][..i] && b[..i + 1] == [b[0]] + b[1..][..i];
          assert ComesFirst(a, b, i + 1);
        }
      }
      if i: nat :| ComesFirst(a, b, i) {
        if i > 0 {
          assert a[0] == a[..i][0] == b[..i][0] == b[0];
          assert a[1..][..i - 1] == a[..i][1..] && b[1..][..i - 1] == b[..i][1..];
          assert ComesFirst(a[1..], b[1..], i - 1);
        }
      }
    }
  }

  /** The texts of an entry and of a file. */
  lemma TextsAsWritten(sha: Digest)
    ensures EntryText("a", false, 12, "h") == "a:file:12:h;" && EntryText("b", true, 0, "h") == "b:directory:0:h;"
    ensures LeafHash(sha, "a", 12) == sha("a:12")
  {
    assert Decimal(12) == "12" && Decimal(0) == "0";
    assert "a" + [':'] + "12" == "a:12";
  }

  /** The entries of a folder come in the order of their names. */
  lemma FolderAsWritten(sha: Digest, a: File, b: File, p: Path)
    requires a.path == p + ["a"] && b.path == p + ["b"]
    ensures HashOf(sha, {b, a}, p)
         == sha(EntryText("a", false, a.size, LeafHash(sha, "a", a.size)) + EntryText("b", false, b.size, LeafHash(sha, "b", b.size)))
  {
    var files := {b, a};
    assert a.path[|p|] == "a" && b.path[|p|] == "b" && p < a.path && p < b.path;
    assert "a"[0] < "b"[0] && Less("a", "b");
    assert Elements(["a", "b"]) == {"a", "b"} == Names(files, p);
    SortedIsUnique(SortedNames(Names(files, p)), ["a", "b"]);
    OnlyFile(files, p, "a", a);
    OnlyFile(files, p, "b", b);
    assert ["a", "b"][..1] == ["a"] && ["a"][..0] == [];
    var first := EntryText("a", false, a.size, LeafHash(sha, "a", a.size));
    assert TextOf(sha, files, p, ["a"]) == "" + first == first;
    assert TextOf(sha, files, p, ["a", "b"]) == first + EntryText("b", false, b.size, LeafHash(sha, "b", b.size));
    assert HashOf(sha, files, p) == sha(TextOf(sha, files, p, ["a", "b"]));
  }

  lemma OnlyFile(files: set<File>, p: Path, n: string, f: File)
    requires f in files && f.path == p + [n] && forall g :: g in files && p + [n] <= g.path ==> g == f
    ensures !IsDir(files, p + [n]) && FileSize(files, p + [n]) == f.size
  {
  }
}
