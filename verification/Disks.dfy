/** A file system without symbolic links: what is at each path, and the calls that change it. */
module Disks {
  import opened Paths

  datatype Node = Folder | File(content: string)

  type Fs = map<Abs, Node>

  function At(fs: Fs, p: Abs): Option<Node> { if p in fs then Some(fs[p]) else None }

  predicate IsFolder(fs: Fs, p: Abs) { At(fs, p) == Some(Folder) }

  /** Everything but the root is in a folder. */
  ghost predicate Rooted(fs: Fs) {
    IsFolder(fs, []) && forall p {:trigger IsFolder(fs, Dir(p))} :: p in fs ==> IsFolder(fs, Dir(p))
  }

  datatype Found = Found(node: Node) | NotExist | NotInFolder

  /** `os.Stat`: below a file, a path is not missing but cannot be looked at. */
  function Stat(fs: Fs, p: Abs): Found {
    if p in fs then Found(fs[p])
    else if p == [] then NotExist
    else match Stat(fs, Dir(p))
      case Found(Folder) => NotExist
      case NotExist => NotExist
      case _ => NotInFolder
  }

  /** `os.ReadDir` */
  function Names(fs: Fs, p: Abs): set<string> { set q <- fs | |q| == |p| + 1 && p < q :: q[|p|] }

  predicate Empty(fs: Fs, p: Abs) { Names(fs, p) == {} }

  // ----- the changed file systems -----

  /** `os.RemoveAll` */
  function Without(fs: Fs, p: Abs): Fs { map q <- fs | !(p <= q) :: fs[q] }

  /** `os.Rename`, onto a path with nothing there. */
  function Moved(fs: Fs, from: Abs, to: Abs): Fs {
    var taken := set q <- fs | from <= q :: to + q[|from|..];
    map q <- fs.Keys + taken | (to <= q && from + q[|to|..] in fs) || (!(to <= q) && !(from <= q) && q in fs) ::
      if to <= q then fs[from + q[|to|..]] else fs[q]
  }

  /** A tree put in place of whatever is at a path. */
  function Planted(fs: Fs, p: Abs, tree: Fs): Fs {
    var put := set r <- tree :: p + r;
    map q <- fs.Keys + put | (p <= q && q[|p|..] in tree) || (!(p <= q) && q in fs) ::
      if p <= q then tree[q[|p|..]] else fs[q]
  }

  /** `os.MkdirAll` */
  function WithFolders(fs: Fs, p: Abs): Fs
    decreases |p|
  {
    var above := if p == [] then fs else WithFolders(fs, Dir(p));
    if p in above then above else above[p := Folder]
  }

  lemma WithoutAt(fs: Fs, p: Abs, q: Abs)
    ensures At(Without(fs, p), q) == if p <= q then None else At(fs, q)
  {
  }

  lemma MovedAt(fs: Fs, from: Abs, to: Abs, q: Abs)
    ensures At(Moved(fs, from, to), q) ==
            if to <= q then At(fs, from + q[|to|..]) else if from <= q then None else At(fs, q)
  {
    if to <= q {
      var source := from + q[|to|..];
      assert source[|from|..] == q[|to|..] && to + source[|from|..] == q;
    }
  }

  lemma PlantedAt(fs: Fs, p: Abs, tree: Fs, q: Abs)
    ensures At(Planted(fs, p, tree), q) == if p <= q then At(tree, q[|p|..]) else At(fs, q)
  {
    if p <= q { assert p + q[|p|..] == q; }
  }

  lemma {:induction false} WithFoldersAt(fs: Fs, p: Abs, q: Abs)
    ensures At(WithFolders(fs, p), q) == if q <= p && At(fs, q).None? then Some(Folder) else At(fs, q)
    decreases |p|
  {
    if p != [] {
      WithFoldersAt(fs, Dir(p), q);
      WithFoldersAt(fs, Dir(p), p);
      if q <= p && q != p { assert q <= Dir(p); }
    }
  }

  // ----- staying rooted -----

  lemma ChildIsBelow(p: Abs, q: Abs)
    requires q != []
    ensures p <= q <==> p <= Dir(q) || p == q
  {
  }

  lemma WithoutIsRooted(fs: Fs, p: Abs)
    requires Rooted(fs) && p != []
    ensures Rooted(Without(fs, p))
  {
    forall q | q in Without(fs, p) ensures IsFolder(Without(fs, p), Dir(q)) {
      assert IsFolder(fs, Dir(q));
      if q != [] { ChildIsBelow(p, q); }
    }
  }

  lemma PlantedParent(fs: Fs, p: Abs, tree: Fs, q: Abs)
    requires Rooted(fs) && IsFolder(fs, Dir(p)) && Rooted(tree) && p != [] && q != [] && q in Planted(fs, p, tree)
    ensures IsFolder(Planted(fs, p, tree), Dir(q))
  {
    PlantedAt(fs, p, tree, q);
    PlantedAt(fs, p, tree, Dir(q));
    ChildIsBelow(p, q);
    if p == q {
      assert !(p <= Dir(p));
    } else if p <= q {
      assert Dir(q)[|p|..] == Dir(q[|p|..]);
      assert IsFolder(tree, Dir(q[|p|..]));
    } else {
      assert IsFolder(fs, Dir(q));
    }
  }

  lemma PlantedIsRooted(fs: Fs, p: Abs, tree: Fs)
    requires Rooted(fs) && p != [] && IsFolder(fs, Dir(p)) && Rooted(tree)
    ensures Rooted(Planted(fs, p, tree))
  {
    PlantedAt(fs, p, tree, []);
    forall q | q in Planted(fs, p, tree) ensures IsFolder(Planted(fs, p, tree), Dir(q)) {
      if q != [] { PlantedParent(fs, p, tree, q); }
    }
  }

  lemma MovedParent(fs: Fs, from: Abs, to: Abs, q: Abs)
    requires Rooted(fs) && from != [] && to != [] && IsFolder(fs, Dir(to)) && !(from <= Dir(to))
    requires q != [] && q in Moved(fs, from, to)
    ensures IsFolder(Moved(fs, from, to), Dir(q))
  {
    MovedAt(fs, from, to, q);
    MovedAt(fs, from, to, Dir(q));
    ChildIsBelow(to, q);
    if to == q {
      assert !(to <= Dir(to));
    } else if to <= q {
      assert from + Dir(q)[|to|..] == Dir(from + q[|to|..]);
      assert IsFolder(fs, Dir(from + q[|to|..]));
    } else {
      ChildIsBelow(from, q);
      assert IsFolder(fs, Dir(q));
    }
  }

  lemma MovedIsRooted(fs: Fs, from: Abs, to: Abs)
    requires Rooted(fs) && from != [] && to != [] && IsFolder(fs, Dir(to)) && !(from <= Dir(to))
    ensures Rooted(Moved(fs, from, to))
  {
    MovedAt(fs, from, to, []);
    forall q | q in Moved(fs, from, to) ensures IsFolder(Moved(fs, from, to), Dir(q)) {
      if q != [] { MovedParent(fs, from, to, q); }
    }
  }

  lemma WithFoldersIsRooted(fs: Fs, p: Abs)
    requires Rooted(fs) && !Stat(fs, p).NotInFolder? && Stat(fs, p) != Found(Folder)
    requires p !in fs
    ensures Rooted(WithFolders(fs, p))
  {
    var after := WithFolders(fs, p);
    WithFoldersAt(fs, p, []);
    forall q | q in after ensures IsFolder(after, Dir(q)) {
      WithFoldersAt(fs, p, q);
      WithFoldersAt(fs, p, Dir(q));
      if q in fs {
        assert IsFolder(fs, Dir(q));
      } else {
        NoFileAbove(fs, p, Dir(q));
      }
    }
  }

  /** Nothing above a missing path is a file. */
  lemma {:induction false} NoFileAbove(fs: Fs, p: Abs, q: Abs)
    requires Rooted(fs) && q <= p && q != p && Stat(fs, p).NotExist?
    ensures At(fs, q).None? || IsFolder(fs, q)
    decreases |p|
  {
    if Dir(p) in fs {
      AncestorsAreFolders(fs, Dir(p), q);
    } else if q != Dir(p) {
      assert q <= Dir(p);
      NoFileAbove(fs, Dir(p), q);
    }
  }

  lemma {:induction false} AncestorsAreFolders(fs: Fs, p: Abs, q: Abs)
    requires Rooted(fs) && q <= p && (p == q ==> IsFolder(fs, p)) && p in fs
    ensures IsFolder(fs, q)
    decreases |p|
  {
    if q != p {
      assert q <= Dir(p) && IsFolder(fs, Dir(p));
      AncestorsAreFolders(fs, Dir(p), q);
    }
  }

  // ----- what is below a path -----

  lemma {:induction false} NothingBelow(fs: Fs, p: Abs, q: Abs)
    requires Rooted(fs) && p !in fs && p <= q
    ensures q !in fs
    decreases |q|
  {
    if q != p && q in fs {
      ChildIsBelow(p, q);
      assert IsFolder(fs, Dir(q));
      NothingBelow(fs, p, Dir(q));
    }
  }

  /** What is inside a folder is one of its entries, or below one. */
  lemma {:induction false} InsideHasName(fs: Fs, p: Abs, q: Abs)
    requires Rooted(fs) && q in fs && p < q
    ensures q[|p|] in Names(fs, p)
    decreases |q|
  {
    if |q| > |p| + 1 {
      assert IsFolder(fs, Dir(q)) && p < Dir(q);
      InsideHasName(fs, p, Dir(q));
    }
  }

  lemma InFolder(fs: Fs, p: Abs, q: Abs)
    requires Rooted(fs) && q in fs && p < q
    ensures IsFolder(fs, p)
  {
    assert IsFolder(fs, Dir(q)) && p <= Dir(q);
    if p != Dir(q) { AncestorsAreFolders(fs, Dir(q), p); }
  }

  /** Nothing but folders is above a path, as far as anything is. */
  ghost predicate FoldersAbove(fs: Fs, path: Abs) {
    forall q: Abs {:trigger At(fs, q)} :: q < path ==> At(fs, q).None? || IsFolder(fs, q)
  }

  /** A path can be looked at exactly if there are only folders above it. */
  lemma {:induction false} StatIsFoldersAbove(fs: Fs, path: Abs)
    requires Rooted(fs)
    ensures !Stat(fs, path).NotInFolder? <==> FoldersAbove(fs, path)
    decreases |path|
  {
    if path != [] {
      StatIsFoldersAbove(fs, Dir(path));
      assert Dir(path) < path && At(fs, Dir(path)) == At(fs, Dir(path));
      if path in fs { assert IsFolder(fs, Dir(path)); }
      if !Stat(fs, path).NotInFolder? {
        forall q: Abs | q < path ensures At(fs, q).None? || IsFolder(fs, q) {
          assert q == Dir(path) || q < Dir(path);
        }
      }
    }
  }

  // ----- a place that nothing has happened to -----

  /** The path and all below it are as before, and above it there are at most new folders. */
  ghost predicate SamePlace(fs: Fs, before: Fs, path: Abs) {
    && (forall q: Abs {:trigger At(fs, q)} :: path <= q ==> At(fs, q) == At(before, q))
    && NewFoldersAbove(fs, before, path)
  }

  ghost predicate NewFoldersAbove(fs: Fs, before: Fs, path: Abs) {
    forall q: Abs {:trigger At(fs, q)} :: q <= path ==>
      At(fs, q) == At(before, q) || (At(before, q).None? && At(fs, q) == Some(Folder))
  }

  predicate InTheWay(fs: Fs, p: Abs) { Stat(fs, p).NotInFolder? || (p in fs && fs[p].File?) }

  lemma {:induction false} SameInTheWay(fs: Fs, before: Fs, path: Abs, q: Abs)
    requires Rooted(fs) && Rooted(before) && NewFoldersAbove(fs, before, path) && q <= path
    ensures InTheWay(fs, q) <==> InTheWay(before, q)
    decreases |q|
  {
    assert At(fs, q) == At(before, q) || (At(before, q).None? && At(fs, q) == Some(Folder));
    if q != [] {
      assert Dir(q) <= path;
      SameInTheWay(fs, before, path, Dir(q));
      if q in fs { assert IsFolder(fs, Dir(q)); }
      if q in before { assert IsFolder(before, Dir(q)); }
    }
  }

  /** Such a place looks the same, and so does, but for whether they are there, what is above it. */
  lemma SameStat(fs: Fs, before: Fs, path: Abs, q: Abs)
    requires Rooted(fs) && Rooted(before) && SamePlace(fs, before, path) && q <= path
    ensures Stat(fs, q).NotInFolder? <==> Stat(before, q).NotInFolder?
    ensures Stat(fs, path) == Stat(before, path)
  {
    SameInTheWay(fs, before, path, q);
    SameInTheWay(fs, before, path, path);
    assert At(fs, q) == At(before, q) || (At(before, q).None? && At(fs, q) == Some(Folder));
    assert At(fs, path) == At(before, path);
  }

  lemma SameNamesThere(fs: Fs, before: Fs, path: Abs)
    requires SamePlace(fs, before, path)
    ensures Names(fs, path) == Names(before, path)
  {
    forall q | q in fs && path < q ensures q in before { assert At(fs, q) == At(before, q); }
    forall q | q in before && path < q ensures q in fs { assert At(fs, q) == At(before, q); }
  }

  // ----- the calls -----

  class Disk {
    var fs: Fs

    ghost predicate Valid() reads this { Rooted(fs) }

    constructor ()
      ensures Valid() && fs == map[[] := Folder]
    {
      fs := map[[] := Folder];
    }

    /** `os.MkdirTemp`, with the name the system picks. */
    method MkdirTemp(parent: Abs, name: string) returns (path: Abs)
      requires Valid() && IsFolder(fs, parent) && Plain(name) && parent + [name] !in fs
      modifies this
      ensures Valid() && path == parent + [name] && fs == old(fs)[path := Folder]
    {
      path := parent + [name];
      assert Dir(path) == parent;
      ghost var before := fs;
      fs := fs[path := Folder];
      forall p | p in fs ensures IsFolder(fs, Dir(p)) { if p != path { assert IsFolder(before, Dir(p)); } }
    }

    /** `os.MkdirAll` */
    method MkdirAll(path: Abs) returns (ok: bool)
      requires Valid()
      modifies this
      ensures Valid() && ok == (Stat(old(fs), path) == NotExist || Stat(old(fs), path) == Found(Folder))
      ensures fs == if ok then WithFolders(old(fs), path) else old(fs)
    {
      var found := Stat(fs, path);
      ok := found == NotExist || found == Found(Folder);
      if found == NotExist {
        WithFoldersIsRooted(fs, path);
        fs := WithFolders(fs, path);
      } else if found == Found(Folder) {
        FoldersAreThere(fs, path);
      }
    }

    /** `os.RemoveAll` */
    method RemoveAll(path: Abs)
      requires Valid() && path != []
      modifies this
      ensures Valid() && fs == Without(old(fs), path)
    {
      WithoutIsRooted(fs, path);
      fs := Without(fs, path);
    }

    /** `os.Remove`: of a file, or of an empty folder. */
    method Remove(path: Abs) returns (ok: bool)
      requires Valid() && path != []
      modifies this
      ensures Valid() && ok == (path in old(fs) && Empty(old(fs), path))
      ensures fs == if ok then Without(old(fs), path) else old(fs)
    {
      ok := path in fs && Empty(fs, path);
      if ok {
        WithoutIsRooted(fs, path);
        fs := Without(fs, path);
      }
    }

    /** `os.Rename`: nothing or, for a file, another file may be at the new path. */
    method Rename(from: Abs, to: Abs) returns (ok: bool)
      requires Valid() && from != [] && to != []
      modifies this
      ensures Valid()
      ensures ok == (from in old(fs) && IsFolder(old(fs), Dir(to)) && !(from <= to)
                     && (to in old(fs) ==> old(fs)[to].File? && old(fs)[from].File?))
      ensures fs == if ok then Moved(old(fs), from, to) else old(fs)
    {
      ok := from in fs && IsFolder(fs, Dir(to)) && !(from <= to) && (to in fs ==> fs[to].File? && fs[from].File?);
      if ok {
        ChildIsBelow(from, to);
        MovedIsRooted(fs, from, to);
        fs := Moved(fs, from, to);
      }
    }

    /** `os.WriteFile` */
    method WriteFile(path: Abs, content: string) returns (ok: bool)
      requires Valid() && path != []
      modifies this
      ensures Valid() && ok == (IsFolder(old(fs), Dir(path)) && !IsFolder(old(fs), path))
      ensures fs == if ok then old(fs)[path := File(content)] else old(fs)
    {
      ok := IsFolder(fs, Dir(path)) && !IsFolder(fs, path);
      if ok {
        ghost var before := fs;
        fs := fs[path := File(content)];
        forall p | p in fs ensures IsFolder(fs, Dir(p)) { if p != path { assert IsFolder(before, Dir(p)); } }
      }
    }

    /** What another program leaves at a path. */
    method Plant(path: Abs, tree: Fs)
      requires Valid() && path != [] && IsFolder(fs, Dir(path)) && Rooted(tree)
      modifies this
      ensures Valid() && fs == Planted(old(fs), path, tree)
    {
      PlantedIsRooted(fs, path, tree);
      fs := Planted(fs, path, tree);
    }
  }

  lemma {:induction false} FoldersAreThere(fs: Fs, p: Abs)
    requires Rooted(fs) && p in fs
    ensures WithFolders(fs, p) == fs
    decreases |p|
  {
    if p != [] {
      assert IsFolder(fs, Dir(p));
      FoldersAreThere(fs, Dir(p));
    }
  }
}
