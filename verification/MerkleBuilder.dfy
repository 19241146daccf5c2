/** The reconciler's tree while it is built from a list of files, and its hashes from the bottom up. */
module MerkleState {
  import opened MerkleSpec
  import opened MerkleTheorems

  datatype Child = FileChild(name: string, size: nat, hash: string) | DirChild(name: string)

  /** The directories by path, each with its children. */
  type DirMap = map<Path, seq<Child>>

  function NamesOf(children: seq<Child>): (names: seq<string>)
    ensures |names| == |children| && forall i :: 0 <= i < |names| ==> names[i] == children[i].name
  {
    seq(|children|, i requires 0 <= i < |children| => children[i].name)
  }

  ghost predicate NoDuplicates(children: seq<Child>) {
    forall i, j :: 0 <= i < j < |children| ==> children[i].name != children[j].name
  }

  /** A directory hangs in its parent, and its children are directories and files of their own names. */
  ghost predicate DirOk(sha: Digest, dirMap: DirMap, files: set<File>, p: Path)
    requires p in dirMap
  {
    && p != [] && NoDuplicates(dirMap[p])
    && (|p| >= 2 ==> p[..|p| - 1] in dirMap && DirChild(p[|p| - 1]) in dirMap[p[..|p| - 1]])
    && forall c :: c in dirMap[p] ==>
         if c.DirChild? then p + [c.name] in dirMap
         else File(p + [c.name], c.size) in files && c.hash == LeafHash(sha, c.name, c.size)
  }

  ghost predicate FileOk(sha: Digest, dirMap: DirMap, f: File) {
    && |f.path| >= 2 && f.path !in dirMap && f.path[..|f.path| - 1] in dirMap
    && FileChild(f.path[|f.path| - 1], f.size, LeafHash(sha, f.path[|f.path| - 1], f.size)) in dirMap[f.path[..|f.path| - 1]]
  }

  ghost predicate Linked(sha: Digest, dirMap: DirMap, files: set<File>) {
    && (forall p {:trigger DirOk(sha, dirMap, files, p)} :: p in dirMap ==> DirOk(sha, dirMap, files, p))
    && (forall f {:trigger FileOk(sha, dirMap, f)} :: f in files ==> FileOk(sha, dirMap, f))
  }

  /** Every directory but the root leads to a file. */
  ghost predicate Tight(dirMap: DirMap, files: set<File>) {
    forall p :: p in dirMap && |p| >= 2 ==> IsDir(files, p)
  }

  lemma AppendNew(children: seq<Child>, c: Child)
    requires NoDuplicates(children) && forall x :: x in children ==> x.name != c.name
    ensures NoDuplicates(children + [c])
  {
  }

  /** Every directory but the root leads to a file, or is on the way to one that is being added. */
  ghost predicate OnlyOnWay(dirMap: DirMap, files: set<File>, way: Path) {
    forall p :: p in dirMap && |p| >= 2 ==> IsDir(files, p) || p < way
  }

  /** A new directory joins its parent. */
  lemma AddDir(sha: Digest, dirMap: DirMap, files: set<File>, p: Path, name: string)
    requires Linked(sha, dirMap, files) && p in dirMap && p + [name] !in dirMap
    requires forall f :: f in files ==> f.path != p + [name]
    ensures Linked(sha, dirMap[p + [name] := []][p := dirMap[p] + [DirChild(name)]], files)
  {
    var next := p + [name];
    var m := dirMap[next := []][p := dirMap[p] + [DirChild(name)]];
    assert DirOk(sha, dirMap, files, p);
    AppendNew(dirMap[p], DirChild(name));
    assert next[..|next| - 1] == p;
    forall q | q in m ensures DirOk(sha, m, files, q) {
      if q != next {
        assert DirOk(sha, dirMap, files, q);
      }
    }
    forall f | f in files ensures FileOk(sha, m, f) {
      assert FileOk(sha, dirMap, f);
    }
  }

  /** A new file joins its directory. */
  lemma AddLeaf(sha: Digest, dirMap: DirMap, files: set<File>, p: Path, name: string, size: nat)
    requires Linked(sha, dirMap, files) && p in dirMap && p + [name] !in dirMap
    requires forall f :: f in files ==> f.path != p + [name]
    ensures Linked(sha, dirMap[p := dirMap[p] + [FileChild(name, size, LeafHash(sha, name, size))]],
                   files + {File(p + [name], size)})
  {
    var c := FileChild(name, size, LeafHash(sha, name, size));
    var m, all := dirMap[p := dirMap[p] + [c]], files + {File(p + [name], size)};
    assert DirOk(sha, dirMap, files, p);
    forall x | x in dirMap[p] ensures x.name != name {
      assert x.name == name ==> p + [x.name] == p + [name];
    }
    AppendNew(dirMap[p], c);
    forall q | q in m ensures DirOk(sha, m, all, q) {
      assert DirOk(sha, dirMap, files, q);
    }
    forall f | f in all ensures FileOk(sha, m, f) {
      if f in files {
        assert FileOk(sha, dirMap, f);
      } else {
        assert f.path[..|f.path| - 1] == p && f.path[|f.path| - 1] == name;
      }
    }
  }

  lemma {:induction false} AncestorsAreDirs(sha: Digest, dirMap: DirMap, files: set<File>, p: Path, q: Path)
    requires Linked(sha, dirMap, files) && p in dirMap && q <= p && q != []
    ensures q in dirMap
    decreases |p|
  {
    if q != p {
      assert DirOk(sha, dirMap, files, p);
      assert q <= p[..|p| - 1];
      AncestorsAreDirs(sha, dirMap, files, p[..|p| - 1], q);
    }
  }

  /** The children of a directory are named as the files below it are. */
  lemma ChildrenAreNames(sha: Digest, dirMap: DirMap, files: set<File>, p: Path)
    requires Linked(sha, dirMap, files) && Tight(dirMap, files) && p in dirMap
    ensures Elements(NamesOf(dirMap[p])) == Names(files, p)
    ensures forall c :: c in dirMap[p] ==> (c.DirChild? <==> IsDir(files, p + [c.name]))
  {
    assert DirOk(sha, dirMap, files, p);
    forall c | c in dirMap[p] ensures c.name in Names(files, p) && (c.DirChild? <==> IsDir(files, p + [c.name])) {
      ChildIsNamed(sha, dirMap, files, p, c);
    }
    forall n | n in Names(files, p) ensures n in Elements(NamesOf(dirMap[p])) {
      NameIsChild(sha, dirMap, files, p, n);
    }
    forall n | n in Elements(NamesOf(dirMap[p])) ensures n in Names(files, p) {
      var i :| 0 <= i < |dirMap[p]| && NamesOf(dirMap[p])[i] == n;
      assert dirMap[p][i] in dirMap[p];
    }
  }

  lemma ChildIsNamed(sha: Digest, dirMap: DirMap, files: set<File>, p: Path, c: Child)
    requires Linked(sha, dirMap, files) && Tight(dirMap, files) && p in dirMap && c in dirMap[p]
    ensures c.name in Names(files, p) && (c.DirChild? <==> IsDir(files, p + [c.name]))
  {
    assert DirOk(sha, dirMap, files, p);
    var next := p + [c.name];
    if c.DirChild? {
      var f :| f in files && next < f.path;
      NextPath(p, c.name, f.path);
    } else {
      NextPath(p, c.name, next);
      assert FileOk(sha, dirMap, File(next, c.size));
      if IsDir(files, next) {
        var f :| f in files && next < f.path;
        assert FileOk(sha, dirMap, f);
        assert next <= f.path[..|f.path| - 1];
        AncestorsAreDirs(sha, dirMap, files, f.path[..|f.path| - 1], next);
      }
    }
  }

  lemma NameIsChild(sha: Digest, dirMap: DirMap, files: set<File>, p: Path, n: string)
    requires Linked(sha, dirMap, files) && p in dirMap && n in Names(files, p)
    ensures n in Elements(NamesOf(dirMap[p]))
  {
    var f :| f in files && p < f.path && f.path[|p|] == n;
    assert FileOk(sha, dirMap, f);
    var last := |f.path| - 1;
    var up, next := f.path[..last], p + [n];
    NextPath(p, n, f.path);
    var c: Child;
    if next == f.path {
      assert |p| == last && f.path[last] == n;
      assert up == p;
      c := FileChild(f.path[last], f.size, LeafHash(sha, f.path[last], f.size));
      assert c in dirMap[up];
    } else {
      assert next <= up;
      AncestorsAreDirs(sha, dirMap, files, up, next);
      assert DirOk(sha, dirMap, files, next) && DirOk(sha, dirMap, files, p);
      assert next[..|next| - 1] == p && next[|next| - 1] == n;
      c := DirChild(n);
      assert c in dirMap[p];
    }
    assert c in dirMap[p];
    var i :| 0 <= i < |dirMap[p]| && dirMap[p][i] == c;
    assert NamesOf(dirMap[p])[i] == n;
  }

  /** Sorting the children of one directory keeps the tree. */
  lemma ReorderKeeps(sha: Digest, dirMap: DirMap, files: set<File>, p: Path, children: seq<Child>)
    requires Linked(sha, dirMap, files) && p in dirMap && NoDuplicates(children)
    requires forall c :: c in children <==> c in dirMap[p]
    ensures Linked(sha, dirMap[p := children], files)
  {
    var m := dirMap[p := children];
    forall q | q in m ensures DirOk(sha, m, files, q) {
      assert DirOk(sha, dirMap, files, q);
    }
    forall f | f in files ensures FileOk(sha, m, f) {
      assert FileOk(sha, dirMap, f);
    }
  }

  ghost predicate TreeOk(sha: Digest, root: string, dirMap: DirMap, files: set<File>, sizes: map<Path, nat>,
                         hashes: map<Path, string>) {
    && Linked(sha, dirMap, files) && Tight(dirMap, files) && [root] in dirMap
    && Computed(sha, files, sizes, hashes)
  }

  lemma SettingKeeps(sha: Digest, root: string, dirMap: DirMap, files: set<File>, sizes: map<Path, nat>,
                     hashes: map<Path, string>, p: Path, size: nat, hash: string)
    requires TreeOk(sha, root, dirMap, files, sizes, hashes) && size == SizeOf(files, p) && hash == HashOf(sha, files, p)
    ensures TreeOk(sha, root, dirMap, files, sizes[p := size], hashes[p := hash])
  {
  }

  /** The sizes and hashes of the directories directly below are there. */
  ghost predicate SubdirectoriesDone(files: set<File>, sizes: map<Path, nat>, hashes: map<Path, string>, p: Path) {
    forall n :: n in Names(files, p) && IsDir(files, p + [n]) ==> p + [n] in sizes && p + [n] in hashes
  }

  /** Those of the first `k` children are. */
  ghost predicate DoneUpTo(children: seq<Child>, sizes: map<Path, nat>, hashes: map<Path, string>, p: Path, k: nat)
    requires k <= |children|
  {
    forall j :: 0 <= j < k && children[j].DirChild? ==> p + [children[j].name] in sizes && p + [children[j].name] in hashes
  }

  lemma DoneMore(children: seq<Child>, sizes: map<Path, nat>, hashes: map<Path, string>, sizes': map<Path, nat>,
                 hashes': map<Path, string>, p: Path, k: nat)
    requires k < |children| && DoneUpTo(children, sizes, hashes, p, k)
    requires sizes.Keys <= sizes'.Keys && hashes.Keys <= hashes'.Keys
    requires children[k].DirChild? ==> p + [children[k].name] in sizes' && p + [children[k].name] in hashes'
    ensures DoneUpTo(children, sizes', hashes', p, k + 1)
  {
    forall j | 0 <= j < k + 1 && children[j].DirChild?
      ensures p + [children[j].name] in sizes' && p + [children[j].name] in hashes'
    {
      if j < k {
        assert p + [children[j].name] in sizes.Keys && p + [children[j].name] in hashes.Keys;
      }
    }
  }

  lemma AllDone(sha: Digest, dirMap: DirMap, files: set<File>, p: Path, sizes: map<Path, nat>, hashes: map<Path, string>)
    requires Linked(sha, dirMap, files) && Tight(dirMap, files) && p in dirMap
    requires DoneUpTo(dirMap[p], sizes, hashes, p, |dirMap[p]|)
    ensures SubdirectoriesDone(files, sizes, hashes, p)
  {
    var children := dirMap[p];
    ChildrenAreNames(sha, dirMap, files, p);
    forall n | n in Names(files, p) && IsDir(files, p + [n]) ensures p + [n] in sizes && p + [n] in hashes {
      assert n in Elements(NamesOf(children));
      var j :| 0 <= j < |children| && NamesOf(children)[j] == n;
      assert children[j] in children;
    }
  }

  /** What the tree holds for a child is what the files give. */
  lemma ChildValues(sha: Digest, root: string, dirMap: DirMap, files: set<File>, sizes: map<Path, nat>,
                    hashes: map<Path, string>, p: Path, child: Child)
    requires TreeOk(sha, root, dirMap, files, sizes, hashes) && p in dirMap && IsFolder(files, root) && child in dirMap[p]
    requires SubdirectoriesDone(files, sizes, hashes, p)
    ensures child.DirChild? <==> IsDir(files, p + [child.name])
    ensures child.DirChild? ==>
              && p + [child.name] in sizes && p + [child.name] in hashes
              && sizes[p + [child.name]] == ChildSize(files, p, child.name)
              && hashes[p + [child.name]] == ChildHash(sha, files, p, child.name)
    ensures child.FileChild? ==>
              && child.size == ChildSize(files, p, child.name) && child.hash == ChildHash(sha, files, p, child.name)
  {
    ChildIsNamed(sha, dirMap, files, p, child);
    assert DirOk(sha, dirMap, files, p);
    if child.FileChild? {
      OneFile(files, root, File(p + [child.name], child.size));
    }
  }

  lemma NextEntry(files: set<File>, p: Path, sha: Digest, names: seq<string>, i: nat)
    requires i < |names|
    ensures SizeOfNames(files, p, names[..i + 1]) == SizeOfNames(files, p, names[..i]) + ChildSize(files, p, names[i])
    ensures TextOf(sha, files, p, names[..i + 1])
         == TextOf(sha, files, p, names[..i])
            + EntryText(names[i], IsDir(files, p + [names[i]]), ChildSize(files, p, names[i]), ChildHash(sha, files, p, names[i]))
  {
    assert names[..i + 1][..i] == names[..i];
  }

  /** All sizes and hashes so far are those of the files. */
  ghost predicate Computed(sha: Digest, files: set<File>, sizes: map<Path, nat>, hashes: map<Path, string>) {
    && (forall p :: p in sizes ==> sizes[p] == SizeOf(files, p))
    && (forall p :: p in hashes ==> hashes[p] == HashOf(sha, files, p))
  }
}

module MerkleBuilder {
  import opened MerkleSpec
  import opened MerkleTheorems
  import opened MerkleState

  /** Where a child belongs among sorted ones. */
  method Position(sorted: seq<Child>, c: Child) returns (j: nat)
    requires IsSorted(NamesOf(sorted)) && forall x :: x in sorted ==> x.name != c.name
    ensures j <= |sorted| && IsSorted(NamesOf(sorted[..j] + [c] + sorted[j..]))
  {
    j := 0;
    while j < |sorted| && Less(sorted[j].name, c.name)
      invariant j <= |sorted| && forall i :: 0 <= i < j ==> Less(sorted[i].name, c.name)
    {
      j := j + 1;
    }
    var names := NamesOf(sorted);
    forall i | j <= i < |sorted| ensures Less(c.name, sorted[i].name) {
      assert sorted[j] in sorted && Less(c.name, sorted[j].name) by {
        LessIsTotal(c.name, sorted[j].name);
      }
      if i > j {
        assert Less(names[j], names[i]);
        LessIsTransitive(c.name, sorted[j].name, sorted[i].name);
      }
    }
    var all := sorted[..j] + [c] + sorted[j..];
    forall a, b | 0 <= a < b < |all| ensures Less(NamesOf(all)[a], NamesOf(all)[b]) {
      var a', b' := if a < j then a else a - 1, if b < j then b else b - 1;
      assert a != j && b != j ==> Less(names[a'], names[b']);
    }
  }

  /** Sorts the children by name. */
  method SortByName(children: seq<Child>) returns (sorted: seq<Child>)
    requires NoDuplicates(children)
    ensures IsSorted(NamesOf(sorted)) && NoDuplicates(sorted) && forall c :: c in sorted <==> c in children
  {
    sorted := [];
    for i := 0 to |children|
      invariant IsSorted(NamesOf(sorted)) && forall c :: c in sorted <==> c in children[..i]
    {
      var c := children[i];
      assert children[..i + 1] == children[..i] + [c];
      var j := Position(sorted, c);
      ghost var before := sorted;
      sorted := sorted[..j] + [c] + sorted[j..];
      assert before == before[..j] + before[j..];
    }
    assert children[..|children|] == children;
    SortedHasNoDuplicates(sorted);
  }

  lemma SortedHasNoDuplicates(children: seq<Child>)
    requires IsSorted(NamesOf(children))
    ensures NoDuplicates(children)
  {
    var names := NamesOf(children);
    forall i, j | 0 <= i < j < |children| ensures children[i].name != children[j].name {
      assert Less(names[i], names[j]);
      LessIsTotal(names[i], names[i]);
    }
  }

  class TreeReconciler {
    const sha: Digest
    const root: string
    var dirMap: DirMap
    var sizes: map<Path, nat>
    var hashes: map<Path, string>
    ghost var files: set<File>

    ghost predicate Valid()
      reads this
    {
      TreeOk(sha, root, dirMap, files, sizes, hashes)
    }

    constructor (sha: Digest, root: string)
      ensures Valid() && files == {} && sizes == map[] && hashes == map[] && this.sha == sha && this.root == root
    {
      this.sha, this.root := sha, root;
      dirMap, sizes, hashes, files := map[[root] := []], map[], map[], {};
    }

    /** Finds or creates the directories on the way to a file, and puts the file into the last one. */
    method AddFile(f: File)
      requires Valid() && sizes == map[] && hashes == map[]
      requires IsFolder(files + {f}, root) && f !in files
      modifies this`dirMap, this`files
      ensures Valid() && files == old(files) + {f}
    {
      var parts := f.path;
      var currentPath := [root];
      var k := 1;
      while k < |parts| - 1
        invariant 1 <= k <= |parts| - 1 && currentPath == parts[..k] && currentPath in dirMap && [root] in dirMap
        invariant Linked(sha, dirMap, files) && files == old(files)
        invariant OnlyOnWay(dirMap, files, f.path)
      {
        assert currentPath + [parts[k]] == parts[..k + 1];
        currentPath := Enter(f, currentPath, parts[k]);
        k := k + 1;
      }
      AddLast(f, currentPath);
    }

    /** The directory of the next segment, which is made if it is not there. */
    method Enter(f: File, currentPath: Path, seg: string) returns (next: Path)
      requires Linked(sha, dirMap, files) && currentPath in dirMap && currentPath + [seg] < f.path
      requires IsFolder(files + {f}, root) && f !in files && OnlyOnWay(dirMap, files, f.path)
      modifies this`dirMap
      ensures next == currentPath + [seg] && next in dirMap && old(dirMap.Keys) <= dirMap.Keys
      ensures Linked(sha, dirMap, files) && OnlyOnWay(dirMap, files, f.path)
    {
      next := currentPath + [seg];
      if next !in dirMap {
        forall g | g in files ensures g.path != next {
          assert g.path == next ==> g.path <= f.path;
        }
        AddDir(sha, dirMap, files, currentPath, seg);
        dirMap := dirMap[next := []][currentPath := dirMap[currentPath] + [DirChild(seg)]];
      }
    }

    method AddLast(f: File, currentPath: Path)
      requires currentPath in dirMap && |f.path| >= 2 && currentPath == f.path[..|f.path| - 1] && [root] in dirMap
      requires Linked(sha, dirMap, files) && IsFolder(files + {f}, root) && f !in files && sizes == map[] && hashes == map[]
      requires OnlyOnWay(dirMap, files, f.path)
      modifies this`dirMap, this`files
      ensures Valid() && files == old(files) + {f}
    {
      var fileName := f.path[|f.path| - 1];
      assert currentPath + [fileName] == f.path;
      forall g | g in files ensures g.path != f.path {
        assert g.path == f.path ==> g.path <= f.path;
      }
      forall g | g in files ensures !(f.path < g.path) {
        assert f.path <= g.path ==> f == g;
      }
      AddLeaf(sha, dirMap, files, currentPath, fileName, f.size);
      var fileHash := sha(fileName + [':'] + Decimal(f.size));
      dirMap := dirMap[currentPath := dirMap[currentPath] + [FileChild(fileName, f.size, fileHash)]];
      ghost var before := files;
      files := files + {f};
      forall p | p in dirMap && |p| >= 2 ensures IsDir(files, p) {
        if IsDir(before, p) {
          var g :| g in before && p < g.path;
          assert g in files;
        } else {
          assert f in files;
        }
      }
    }

    /** Computes the size and hash of a directory after those of its directories. */
    method ComputeDirectoryHashes(p: Path)
      requires Valid() && p in dirMap && IsFolder(files, root)
      modifies this`dirMap, this`sizes, this`hashes
      ensures Valid() && dirMap.Keys == old(dirMap.Keys)
      ensures old(sizes.Keys) <= sizes.Keys && old(hashes.Keys) <= hashes.Keys
      ensures p in sizes && p in hashes && forall q :: q in dirMap && !(p <= q) ==> dirMap[q] == old(dirMap[q])
      decreases Longest(files) - |p|, 2
    {
      ComputeSubdirectories(p);
      assert DirOk(sha, dirMap, files, p);
      var children := SortByName(dirMap[p]);
      ReorderKeeps(sha, dirMap, files, p, children);
      dirMap := dirMap[p := children];
      HashChildren(p);
    }

    method ComputeSubdirectories(p: Path)
      requires Valid() && p in dirMap && IsFolder(files, root)
      modifies this`dirMap, this`sizes, this`hashes
      ensures Valid() && dirMap.Keys == old(dirMap.Keys)
      ensures old(sizes.Keys) <= sizes.Keys && old(hashes.Keys) <= hashes.Keys
      ensures SubdirectoriesDone(files, sizes, hashes, p) && forall q :: q in dirMap && !(p < q) ==> dirMap[q] == old(dirMap[q])
      decreases Longest(files) - |p|, 1
    {
      var children := dirMap[p];
      ChildrenAreNames(sha, dirMap, files, p);
      assert DirOk(sha, dirMap, files, p);
      assert forall c :: c in children && c.DirChild? ==> p + [c.name] in dirMap.Keys && IsDir(files, p + [c.name]);
      for i := 0 to |children|
        invariant Valid() && dirMap.Keys == old(dirMap.Keys)
        invariant forall q :: q in dirMap && !(p < q) ==> dirMap[q] == old(dirMap[q])
        invariant old(sizes.Keys) <= sizes.Keys && old(hashes.Keys) <= hashes.Keys
        invariant DoneUpTo(children, sizes, hashes, p, i)
      {
        ComputeChild(p, children, i);
      }
      AllDone(sha, dirMap, files, p, sizes, hashes);
    }

    /** Computes the hash of one child, if it is a directory. */
    method ComputeChild(p: Path, children: seq<Child>, i: nat)
      requires Valid() && p in dirMap && IsFolder(files, root) && i < |children|
      requires var c := children[i]; c.DirChild? ==> p + [c.name] in dirMap && IsDir(files, p + [c.name])
      requires DoneUpTo(children, sizes, hashes, p, i)
      modifies this`dirMap, this`sizes, this`hashes
      ensures Valid() && dirMap.Keys == old(dirMap.Keys) && DoneUpTo(children, sizes, hashes, p, i + 1)
      ensures old(sizes.Keys) <= sizes.Keys && old(hashes.Keys) <= hashes.Keys
      ensures forall q :: q in dirMap && !(p < q) ==> dirMap[q] == old(dirMap[q])
      decreases Longest(files) - |p|, 0
    {
      ghost var sizesBefore, hashesBefore := sizes, hashes;
      if children[i].DirChild? {
        ComputeDirectoryHashes(p + [children[i].name]);
      }
      DoneMore(children, sizesBefore, hashesBefore, sizes, hashes, p, i);
    }

    /** Sets the size and hash of a directory whose children are sorted and known. */
    method HashChildren(p: Path)
      requires Valid() && p in dirMap && IsFolder(files, root) && IsSorted(NamesOf(dirMap[p]))
      requires SubdirectoriesDone(files, sizes, hashes, p)
      modifies this`sizes, this`hashes
      ensures Valid() && sizes.Keys == old(sizes.Keys) + {p} && hashes.Keys == old(hashes.Keys) + {p}
    {
      var totalSize, entryBuffer := JoinEntries(p);
      SetHash(p, totalSize, sha(entryBuffer));
    }

    method SetHash(p: Path, totalSize: nat, digest: string)
      requires TreeOk(sha, root, dirMap, files, sizes, hashes)
      requires totalSize == SizeOf(files, p) && digest == HashOf(sha, files, p)
      modifies this`sizes, this`hashes
      ensures TreeOk(sha, root, dirMap, files, sizes, hashes)
      ensures sizes == old(sizes)[p := totalSize] && hashes == old(hashes)[p := digest]
    {
      SettingKeeps(sha, root, dirMap, files, sizes, hashes, p, totalSize, digest);
      sizes := sizes[p := totalSize];
      hashes := hashes[p := digest];
    }

    /** Adds up the sizes of the sorted children, and puts their entries together. */
    method JoinEntries(p: Path) returns (totalSize: nat, entryBuffer: string)
      requires Valid() && p in dirMap && IsFolder(files, root) && IsSorted(NamesOf(dirMap[p]))
      requires SubdirectoriesDone(files, sizes, hashes, p)
      ensures totalSize == SizeOf(files, p) && sha(entryBuffer) == HashOf(sha, files, p)
    {
      var children := dirMap[p];
      ghost var names := NamesOf(children);
      ChildrenAreNames(sha, dirMap, files, p);
      SortedIsUnique(names, SortedNames(Names(files, p)));
      totalSize, entryBuffer := 0, "";
      assert names[..0] == [];
      for i := 0 to |children|
        invariant totalSize == SizeOfNames(files, p, names[..i]) && entryBuffer == TextOf(sha, files, p, names[..i])
      {
        var child := children[i];
        NextEntry(files, p, sha, names, i);
        ChildValues(sha, root, dirMap, files, sizes, hashes, p, child);
        var isDir := child.DirChild?;
        var size := if isDir then sizes[p + [child.name]] else child.size;
        var hash := if isDir then hashes[p + [child.name]] else child.hash;
        totalSize := totalSize + size;
        entryBuffer := entryBuffer + EntryText(child.name, isDir, size, hash);
      }
      assert names[..|names|] == names;
    }
  }

  ghost function SetOf(files: seq<File>): set<File> {
    set f | f in files
  }

  lemma NextFile(files: seq<File>, i: nat)
    requires i < |files|
    ensures SetOf(files[..i + 1]) == SetOf(files[..i]) + {files[i]} <= SetOf(files)
    ensures (forall j :: 0 <= j < i ==> files[j].path != files[i].path) ==> files[i] !in SetOf(files[..i])
  {
    assert files[..i + 1] == files[..i] + [files[i]];
  }

  /**
   Builds the tree of a list of files and hashes it. Size and hash depend on the set of files alone, and
   so not on the order of the list.
   */
  method BuildMerkleTree(sha: Digest, files: seq<File>, root: string) returns (size: nat, hash: string)
    requires IsFolder(SetOf(files), root) && forall i, j :: 0 <= i < j < |files| ==> files[i].path != files[j].path
    ensures size == SizeOf(SetOf(files), [root]) && hash == HashOf(sha, SetOf(files), [root])
  {
    var tree := new TreeReconciler(sha, root);
    for i := 0 to |files|
      invariant fresh(tree) && tree.Valid() && tree.files == SetOf(files[..i])
      invariant tree.sha == sha && tree.root == root && tree.sizes == map[] && tree.hashes == map[]
    {
      NextFile(files, i);
      tree.AddFile(files[i]);
    }
    assert files[..|files|] == files;
    tree.ComputeDirectoryHashes([root]);
    size, hash := tree.sizes[[root]], tree.hashes[[root]];
  }

  /** Two lists of files under one root get the same root hash if and only if they are permutations of each other. */
  lemma RootHashTellsLists(sha: Digest, a: seq<File>, b: seq<File>, root: string)
    requires IsHash(sha)
    requires IsFolder(SetOf(a), root) && CleanNames(SetOf(a)) && IsFolder(SetOf(b), root) && CleanNames(SetOf(b))
    requires forall i, j :: 0 <= i < j < |a| ==> a[i].path != a[j].path
    requires forall i, j :: 0 <= i < j < |b| ==> b[i].path != b[j].path
    ensures HashOf(sha, SetOf(a), [root]) == HashOf(sha, SetOf(b), [root]) <==> multiset(a) == multiset(b)
  {
    RootHashStandsForTree(sha, SetOf(a), root, SetOf(b), root);
    if multiset(a) == multiset(b) {
      forall f ensures f in SetOf(a) <==> f in SetOf(b) {
        assert f in multiset(a) <==> f in multiset(b);
      }
      assert SetOf(a) == SetOf(b);
    }
    if Content(SetOf(a), [root]) == Content(SetOf(b), [root]) {
      ContentTells(SetOf(a), SetOf(b), root);
      ContentTells(SetOf(b), SetOf(a), root);
      assert SetOf(a) == SetOf(b);
      forall f ensures multiset(a)[f] == multiset(b)[f] {
        EachOnce(a, f);
        EachOnce(b, f);
      }
    }
  }

  lemma ContentTells(a: set<File>, b: set<File>, root: string)
    requires IsFolder(a, root) && IsFolder(b, root) && Content(a, [root]) <= Content(b, [root])
    ensures a <= b
  {
    forall f | f in a ensures f in b {
      assert [root] < f.path && (f.path[1..], f.size) in Content(a, [root]);
      var g :| g in b && [root] < g.path && (g.path[1..], g.size) == (f.path[1..], f.size);
      assert f.path == [f.path[0]] + f.path[1..] && g.path == [g.path[0]] + g.path[1..];
    }
  }

  lemma {:induction false} EachOnce(files: seq<File>, f: File)
    requires forall i, j :: 0 <= i < j < |files| ==> files[i].path != files[j].path
    ensures multiset(files)[f] == if f in SetOf(files) then 1 else 0
  {
    if files != [] {
      var before, last := files[..|files| - 1], files[|files| - 1];
      EachOnce(before, f);
      assert files == before + [last];
    }
  }
}
