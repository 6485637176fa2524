/** Cloning one project: directly, or in a temporary directory that then takes the place of an empty destination or of
    a placeholder. */
module Cloning {
  import opened Paths
  import opened Disks
  import opened Placeholders

  // ----- moving the contents of a directory -----

  /** What is at a path once some of the entries of a directory were moved to another one. */
  function ContentsAt(fs: Fs, from: Abs, to: Abs, moved: set<string>, q: Abs): Option<Node> {
    if to < q && q[|to|] in moved then At(fs, from + q[|to|..])
    else if from < q && q[|from|] in moved then None
    else At(fs, q)
  }

  ghost predicate ContentsMoved(fs: Fs, before: Fs, from: Abs, to: Abs, moved: set<string>) {
    forall q: Abs {:trigger At(fs, q)} :: At(fs, q) == ContentsAt(before, from, to, moved, q)
  }

  /** Two directories that entries can be moved between: no entry is already at the other, and the destination is not
      inside the source. */
  ghost predicate CanMove(fs: Fs, from: Abs, to: Abs) {
    && Rooted(fs) && IsFolder(fs, from) && IsFolder(fs, to) && !(from <= to)
    && Names(fs, from) !! Names(fs, to) && (to < from ==> from[|to|] !in Names(fs, from))
  }

  lemma NameAt(fs: Fs, p: Abs, name: string)
    requires Plain(name)
    ensures name in Names(fs, p) <==> p + [name] in fs
  {
    if name in Names(fs, p) {
      var q :| q in fs && |q| == |p| + 1 && p < q && q[|p|] == name;
      assert q == p + [name];
    }
    if p + [name] in fs { assert p < p + [name] && (p + [name])[|p|] == name; }
  }

  lemma NameIsPlain(fs: Fs, p: Abs, name: string)
    requires name in Names(fs, p)
    ensures Plain(name) && p + [name] in fs
  {
    var q :| q in fs && |q| == |p| + 1 && p < q && q[|p|] == name;
    assert q == p + [name] && name in q;
  }

  lemma BelowEntry(p: Abs, name: string, q: Abs)
    requires Plain(name)
    ensures p + [name] <= q <==> p < q && q[|p|] == name
    ensures p < q && q[|p|] == name ==> q[|p|..] == [name] + q[|p| + 1..]
  {
  }

  lemma MoveOne(fs: Fs, before: Fs, from: Abs, to: Abs, moved: set<string>, name: string, q: Abs)
    requires CanMove(before, from, to) && ContentsMoved(fs, before, from, to, moved) && moved <= Names(before, from)
    requires name in Names(before, from) - moved && Plain(name)
    ensures At(Moved(fs, from + [name], to + [name]), q) == ContentsAt(before, from, to, moved + {name}, q)
  {
    MovedAt(fs, from + [name], to + [name], q);
    BelowEntry(to, name, q);
    BelowEntry(from, name, q);
    if to + [name] <= q {
      var source := from + [name] + q[|to| + 1..];
      assert source == from + q[|to|..] && source[|from|] == name;
      BelowEntry(from, name, source);
      assert At(fs, source) == ContentsAt(before, from, to, moved, source);
    } else {
      assert At(fs, q) == ContentsAt(before, from, to, moved, q);
    }
  }

  lemma MoveWorks(fs: Fs, before: Fs, from: Abs, to: Abs, moved: set<string>, name: string)
    requires CanMove(before, from, to) && ContentsMoved(fs, before, from, to, moved) && moved <= Names(before, from)
    requires name in Names(before, from) - moved && Plain(name)
    ensures from + [name] in fs && IsFolder(fs, to) && to + [name] !in fs && !(from + [name] <= to + [name])
  {
    NameAt(before, from, name);
    NameAt(before, to, name);
    assert At(fs, from + [name]) == ContentsAt(before, from, to, moved, from + [name]);
    assert At(fs, to + [name]) == ContentsAt(before, from, to, moved, to + [name]);
    assert At(fs, to) == ContentsAt(before, from, to, moved, to);
    BelowEntry(from, name, to + [name]);
  }

  /** `moveDirectoryContents`: one rename after the other; none of them can fail here. */
  method MoveContents(disk: Disk, from: Abs, to: Abs)
    requires disk.Valid() && CanMove(disk.fs, from, to)
    modifies disk
    ensures disk.Valid() && ContentsMoved(disk.fs, old(disk.fs), from, to, Names(old(disk.fs), from))
  {
    ghost var before := disk.fs;
    var left := Names(disk.fs, from);
    ghost var moved: set<string> := {};
    while left != {}
      invariant disk.Valid() && left + moved == Names(before, from) && left !! moved
      invariant ContentsMoved(disk.fs, before, from, to, moved)
    {
      var name :| name in left;
      NameIsPlain(before, from, name);
      MoveWorks(disk.fs, before, from, to, moved, name);
      ghost var now := disk.fs;
      assert Dir(to + [name]) == to;
      var ok := disk.Rename(from + [name], to + [name]);
      forall q: Abs ensures At(disk.fs, q) == ContentsAt(before, from, to, moved + {name}, q) {
        MoveOne(now, before, from, to, moved, name, q);
      }
      left, moved := left - {name}, moved + {name};
    }
  }

  // ----- after the clone: from the temporary directory to the destination -----

  /** The temporary directory holds the tree. */
  ghost predicate HoldsTree(fs: Fs, temp: Abs, tree: Fs) {
    forall r: Abs {:trigger At(tree, r)} :: At(fs, temp + r) == At(tree, r)
  }

  /** The destination is the tree, the temporary directory is gone, and nothing else has changed. */
  function ReplacedAt(before: Fs, path: Abs, temp: Abs, tree: Fs, q: Abs): Option<Node> {
    if path <= q then At(tree, q[|path|..]) else if temp <= q then None else At(before, q)
  }

  ghost predicate Replaced(fs: Fs, before: Fs, path: Abs, temp: Abs, tree: Fs) {
    forall q: Abs {:trigger At(fs, q)} :: At(fs, q) == ReplacedAt(before, path, temp, tree, q)
  }

  /** A temporary directory next to the destination or, for the workspace root, in it; the tree has nothing by its
      name. */
  ghost predicate TempFor(fs: Fs, path: Abs, temp: Abs, tree: Fs) {
    && Rooted(fs) && Rooted(tree) && path != [] && temp != [] && IsFolder(fs, path)
    && !(temp <= path) && HoldsTree(fs, temp, tree)
    && (Dir(temp) == path || Dir(temp) == Dir(path)) && [temp[|temp| - 1]] !in tree
  }

  lemma TreeNames(fs: Fs, temp: Abs, tree: Fs)
    requires HoldsTree(fs, temp, tree) && Rooted(tree)
    ensures Names(fs, temp) == Names(tree, []) && IsFolder(fs, temp)
  {
    assert At(fs, temp + []) == At(tree, []) && temp + [] == temp;
    forall name | name in Names(fs, temp) ensures name in Names(tree, []) {
      NameIsPlain(fs, temp, name);
      assert At(fs, temp + [name]) == At(tree, [name]);
      NameAt(tree, [], name);
      assert [] + [name] == [name];
    }
    forall name | name in Names(tree, []) ensures name in Names(fs, temp) {
      NameIsPlain(tree, [], name);
      assert [] + [name] == [name];
      assert At(fs, temp + [name]) == At(tree, [name]);
      NameAt(fs, temp, name);
    }
  }

  lemma TempNameIsNotInTree(fs: Fs, path: Abs, temp: Abs, tree: Fs)
    requires TempFor(fs, path, temp, tree)
    ensures temp[|temp| - 1] !in Names(fs, temp) && Plain(temp[|temp| - 1])
  {
    var name := temp[|temp| - 1];
    assert name in temp;
    TreeNames(fs, temp, tree);
    NameAt(tree, [], name);
    assert [] + [name] == [name];
  }

  /** A destination with nothing in it but, perhaps, the temporary directory. */
  ghost predicate Vacant(fs: Fs, path: Abs, temp: Abs) { Names(fs, path) <= NameIn(path, Some(temp)) }

  lemma VacantCanBeFilled(fs: Fs, path: Abs, temp: Abs, tree: Fs)
    requires TempFor(fs, path, temp, tree) && Vacant(fs, path, temp)
    ensures CanMove(fs, temp, path)
  {
    TreeNames(fs, temp, tree);
    TempNameIsNotInTree(fs, path, temp, tree);
    if path < temp { assert temp[|path|] == temp[|temp| - 1]; }
  }

  lemma VacantHasNothing(fs: Fs, path: Abs, temp: Abs, q: Abs)
    requires Rooted(fs) && Vacant(fs, path, temp) && path < q && q in fs
    ensures temp <= q && path < temp
  {
    InsideHasName(fs, path, q);
    assert temp == path + [q[|path|]] && q[..|path| + 1] == temp;
  }

  lemma FilledAt(fs: Fs, moved: Fs, path: Abs, temp: Abs, tree: Fs, q: Abs)
    requires TempFor(fs, path, temp, tree) && Vacant(fs, path, temp)
    requires ContentsMoved(moved, fs, temp, path, Names(fs, temp))
    ensures At(Without(moved, temp), q) == ReplacedAt(fs, path, temp, tree, q)
  {
    WithoutAt(moved, temp, q);
    assert At(moved, q) == ContentsAt(fs, temp, path, Names(fs, temp), q);
    TreeNames(fs, temp, tree);
    if temp <= q {
      TempInTree(path, temp, tree, q);
    } else if path < q {
      assert At(fs, temp + q[|path|..]) == At(tree, q[|path|..]);
      if q[|path|..] in tree {
        InsideHasName(tree, [], q[|path|..]);
      } else if q in fs {
        VacantHasNothing(fs, path, temp, q);
      }
    } else if q == path {
      assert q[|path|..] == [];
    }
  }

  /** Below the temporary directory the tree has nothing, should that directory be in the destination. */
  lemma TempInTree(path: Abs, temp: Abs, tree: Fs, q: Abs)
    requires Rooted(tree) && temp != [] && [temp[|temp| - 1]] !in tree && temp <= q && AllPlain([temp[|temp| - 1]])
    requires !(temp <= path) && (Dir(temp) == path || Dir(temp) == Dir(path))
    ensures path <= q ==> At(tree, q[|path|..]) == None
  {
    if path <= q {
      assert q[..|temp|] == temp;
      if |path| < |temp| {
        assert path == temp[..|path|] && Dir(temp) == path;
        assert [temp[|temp| - 1]] <= q[|path|..];
        NothingBelow(tree, [temp[|temp| - 1]], q[|path|..]);
      }
    }
  }

  lemma NoNameLeft(fs: Fs, moved: Fs, path: Abs, temp: Abs, tree: Fs, name: string)
    requires TempFor(fs, path, temp, tree) && Plain(name)
    requires ContentsMoved(moved, fs, temp, path, Names(fs, temp))
    ensures temp + [name] !in moved
  {
    TempNameIsNotInTree(fs, path, temp, tree);
    assert At(moved, temp + [name]) == ContentsAt(fs, temp, path, Names(fs, temp), temp + [name]);
    NameAt(fs, temp, name);
    assert path < temp ==> (temp + [name])[|path|] == temp[|temp| - 1];
  }

  lemma NothingLeftInTemp(fs: Fs, moved: Fs, path: Abs, temp: Abs, tree: Fs)
    requires TempFor(fs, path, temp, tree)
    requires ContentsMoved(moved, fs, temp, path, Names(fs, temp))
    ensures temp in moved && Empty(moved, temp)
  {
    TreeNames(fs, temp, tree);
    TempNameIsNotInTree(fs, path, temp, tree);
    if path < temp { assert temp[|path|] == temp[|temp| - 1]; }
    assert At(moved, temp) == ContentsAt(fs, temp, path, Names(fs, temp), temp);
    if Names(moved, temp) != {} {
      var name :| name in Names(moved, temp);
      NameIsPlain(moved, temp, name);
      NoNameLeft(fs, moved, path, temp, tree, name);
    }
  }

  /** The move into an empty destination, and the removal of the temporary directory. */
  method FillDestination(disk: Disk, path: Abs, temp: Abs, ghost tree: Fs)
    requires disk.Valid() && TempFor(disk.fs, path, temp, tree) && Vacant(disk.fs, path, temp)
    modifies disk
    ensures disk.Valid() && Replaced(disk.fs, old(disk.fs), path, temp, tree)
  {
    ghost var before := disk.fs;
    VacantCanBeFilled(before, path, temp, tree);
    MoveContents(disk, temp, path);
    ghost var moved := disk.fs;
    NothingLeftInTemp(before, moved, path, temp, tree);
    var removed := disk.Remove(temp);
    forall q: Abs ensures At(disk.fs, q) == ReplacedAt(before, path, temp, tree, q) {
      FilledAt(before, moved, path, temp, tree, q);
    }
  }

  // ----- in the place of a placeholder -----

  /** The three files of an untouched placeholder are removed one by one; they are all there is but the temporary
      directory. */
  ghost predicate OnlySentinels(fs: Fs, path: Abs, temp: Abs) {
    && Rooted(fs) && path != [] && Names(fs, path) - NameIn(path, Some(temp)) == SentinelFiles()
    && forall name <- SentinelFiles() :: Plain(name) && path + [name] in fs && fs[path + [name]].File?
  }

  lemma UntouchedHasSentinels(codec: Codec, fs: Fs, path: Abs, alias: string, identity: string, temp: Abs)
    requires Rooted(fs) && path != [] && Untouched(codec, fs, path, alias, identity, NameIn(path, Some(temp)))
    ensures OnlySentinels(fs, path, temp)
  {
  }

  lemma SentinelIsFile(codec: Codec, fs: Fs, path: Abs, alias: string, identity: string, allowed: set<string>,
                       name: string)
    requires Untouched(codec, fs, path, alias, identity, allowed) && name in SentinelFiles()
    ensures Plain(name) && path + [name] in fs && fs[path + [name]].File?
  {
  }

  ghost predicate SentinelsGone(fs: Fs, before: Fs, path: Abs, gone: set<string>) {
    forall q: Abs {:trigger At(fs, q)} ::
      At(fs, q) == if path < q && q[|path|] in gone then None else At(before, q)
  }

  lemma FileIsEmpty(fs: Fs, p: Abs)
    requires Rooted(fs) && p in fs && fs[p].File?
    ensures Empty(fs, p)
  {
    if Names(fs, p) != {} {
      var name :| name in Names(fs, p);
      NameIsPlain(fs, p, name);
      InFolder(fs, p, p + [name]);
    }
  }

  lemma OneMoreGone(fs: Fs, before: Fs, path: Abs, gone: set<string>, name: string, q: Abs)
    requires SentinelsGone(fs, before, path, gone) && Plain(name)
    ensures At(Without(fs, path + [name]), q) ==
            if path < q && q[|path|] in gone + {name} then None else At(before, q)
  {
    WithoutAt(fs, path + [name], q);
    BelowEntry(path, name, q);
    assert At(fs, q) == if path < q && q[|path|] in gone then None else At(before, q);
  }

  method RemoveSentinels(disk: Disk, path: Abs, ghost temp: Abs)
    requires disk.Valid() && OnlySentinels(disk.fs, path, temp)
    modifies disk
    ensures disk.Valid() && SentinelsGone(disk.fs, old(disk.fs), path, SentinelFiles())
  {
    ghost var before := disk.fs;
    var left := SentinelFiles();
    ghost var gone: set<string> := {};
    while left != {}
      invariant disk.Valid() && left + gone == SentinelFiles() && left !! gone
      invariant SentinelsGone(disk.fs, before, path, gone)
    {
      var name :| name in left;
      assert Plain(name) && path + [name] in before;
      ghost var now := disk.fs;
      assert At(now, path + [name]) == At(before, path + [name]);
      FileIsEmpty(now, path + [name]);
      var removed := disk.Remove(path + [name]);
      forall q: Abs ensures At(disk.fs, q) == if path < q && q[|path|] in gone + {name} then None else At(before, q) {
        OneMoreGone(now, before, path, gone, name, q);
      }
      left, gone := left - {name}, gone + {name};
    }
  }

  lemma GoneIsVacant(fs: Fs, before: Fs, path: Abs, temp: Abs, tree: Fs)
    requires TempFor(before, path, temp, tree) && OnlySentinels(before, path, temp) && Rooted(fs)
    requires SentinelsGone(fs, before, path, SentinelFiles()) && temp in before
    requires path < temp ==> temp[|path|] !in SentinelFiles()
    ensures TempFor(fs, path, temp, tree) && Vacant(fs, path, temp)
  {
    assert At(fs, path) == At(before, path);
    forall r: Abs ensures At(fs, temp + r) == At(tree, r) {
      assert At(before, temp + r) == At(tree, r);
      assert path < temp + r ==> path < temp && (temp + r)[|path|] == temp[|path|];
    }
    forall name | name in Names(fs, path) ensures name in NameIn(path, Some(temp)) {
      NameIsPlain(fs, path, name);
      var q := path + [name];
      assert At(fs, q) == if path < q && q[|path|] in SentinelFiles() then None else At(before, q);
      NameAt(before, path, name);
    }
  }

  /** What took the place of the placeholder also replaced what was left of it. */
  lemma ReplacedThrough(fs: Fs, middle: Fs, before: Fs, path: Abs, temp: Abs, tree: Fs)
    requires Replaced(fs, middle, path, temp, tree) && SentinelsGone(middle, before, path, SentinelFiles())
    ensures Replaced(fs, before, path, temp, tree)
  {
  }

  /** Inside the placeholder of the workspace root: the files are removed, and the tree is moved in. */
  method FillPlaceholder(disk: Disk, path: Abs, temp: Abs, ghost tree: Fs)
    requires disk.Valid() && TempFor(disk.fs, path, temp, tree) && OnlySentinels(disk.fs, path, temp)
    requires path < temp ==> temp[|path|] !in SentinelFiles()
    modifies disk
    ensures disk.Valid() && Replaced(disk.fs, old(disk.fs), path, temp, tree)
  {
    ghost var before := disk.fs;
    TreeNames(before, temp, tree);
    RemoveSentinels(disk, path, temp);
    ghost var middle := disk.fs;
    GoneIsVacant(middle, before, path, temp, tree);
    FillDestination(disk, path, temp, tree);
    ReplacedThrough(disk.fs, middle, before, path, temp, tree);
  }

  lemma SwappedAt(fs: Fs, path: Abs, temp: Abs, tree: Fs, q: Abs)
    requires TempFor(fs, path, temp, tree) && !(path <= temp)
    ensures At(Moved(Without(fs, path), temp, path), q) == ReplacedAt(fs, path, temp, tree, q)
  {
    var bare := Without(fs, path);
    MovedAt(bare, temp, path, q);
    if path <= q {
      WithoutAt(fs, path, temp + q[|path|..]);
      assert At(fs, temp + q[|path|..]) == At(tree, q[|path|..]);
      SiblingsApart(path, temp, temp + q[|path|..]);
    } else {
      WithoutAt(fs, path, q);
    }
  }

  lemma SiblingsApart(p: Abs, q: Abs, r: Abs)
    ensures p <= r && q <= r ==> p <= q || q <= p
  {
  }

  /** Next to the placeholder: it is removed, and the temporary directory renamed. */
  method SwapPlaceholder(disk: Disk, path: Abs, temp: Abs, ghost tree: Fs)
    requires disk.Valid() && TempFor(disk.fs, path, temp, tree) && !(path <= temp)
    modifies disk
    ensures disk.Valid() && Replaced(disk.fs, old(disk.fs), path, temp, tree)
  {
    ghost var before := disk.fs;
    TreeNames(before, temp, tree);
    assert IsFolder(before, Dir(path)) && !(path <= Dir(path));
    disk.RemoveAll(path);
    WithoutAt(before, path, temp);
    WithoutAt(before, path, path);
    WithoutAt(before, path, Dir(path));
    var renamed := disk.Rename(temp, path);
    forall q: Abs ensures At(disk.fs, q) == ReplacedAt(before, path, temp, tree, q) {
      SwappedAt(before, path, temp, tree, q);
    }
  }

  // ----- the clone -----

  /** `git clone` leaves a checkout, or fails after writing part of one. */
  datatype GitOutcome = Finished(tree: Fs) | FailedAfter(partial: Option<Fs>)

  datatype CloneResult = Cloned | PathConflict | UnsafePath

  ghost predicate GitOk(git: GitOutcome, name: string) {
    match git
    case Finished(tree) => Rooted(tree) && [name] !in tree.Keys
    case FailedAfter(partial) => partial.Some? ==> Rooted(partial.value)
  }

  /** What a user does to the destination while git runs: anything inside it, but for the temporary directory. */
  ghost predicate EditsInside(during: Fs -> Fs, path: Abs, temp: Abs) {
    forall fs: Fs {:trigger during(fs)} :: Rooted(fs) && IsFolder(fs, path) ==>
      Rooted(during(fs)) && forall q: Abs {:trigger At(during(fs), q)} ::
        !(path < q) || temp <= q ==> At(during(fs), q) == At(fs, q)
  }

  function TempParent(root: Option<Abs>, path: Abs): Abs { if root == Some(path) then path else Dir(path) }

  function TempPath(root: Option<Abs>, path: Abs, name: string): Abs
    requires Plain(name)
  {
    TempParent(root, path) + [name]
  }

  /** `ensureRealDestinationWithinRoot`, without symbolic links. */
  predicate WithinRoot(fs: Fs, root: Option<Abs>, path: Abs) {
    root.None? || (!Stat(fs, root.value).NotInFolder? && !Stat(fs, path).NotInFolder? && root.value <= path)
  }

  /** It is being a prefix, with nothing but folders above the path. */
  lemma WithinRootIsInside(fs: Fs, root: Abs, path: Abs)
    requires Rooted(fs)
    ensures WithinRoot(fs, Some(root), path) <==> root <= path && FoldersAbove(fs, path)
  {
    StatIsFoldersAbove(fs, path);
    StatIsFoldersAbove(fs, root);
  }

  function AfterGit(fs: Fs, temp: Abs, during: Fs -> Fs, tree: Fs): Fs {
    Planted(during(fs[temp := Folder]), temp, tree)
  }

  /** A destination folder that a clone may fill: an untouched placeholder, or an empty one; `temp` may be in it. */
  ghost predicate Fillable(codec: Codec, fs: Fs, path: Abs, alias: string, identity: string, placeholder: bool,
      temp: Abs) {
    if placeholder then
      Untouched(codec, fs, path, alias, identity, NameIn(path, Some(temp))) && alias != "" && identity != ""
    else Vacant(fs, path, temp)
  }

  /** The part of `clone` after git has succeeded: the destination is looked at again before anything in it goes. */
  method FinishByTemp(disk: Disk, codec: Codec, path: Abs, alias: string, identity: string, placeholder: bool,
      temp: Abs, ghost tree: Fs) returns (done: bool)
    requires disk.Valid() && Lawful(codec) && TempFor(disk.fs, path, temp, tree) && temp != path
    requires path < temp ==> temp[|path|] !in SentinelFiles()
    modifies disk
    ensures disk.Valid() && done == Fillable(codec, old(disk.fs), path, alias, identity, placeholder, temp)
    ensures if done then Replaced(disk.fs, old(disk.fs), path, temp, tree) else disk.fs == Without(old(disk.fs), temp)
  {
    if placeholder {
      done := OwnedByAllowing(codec, disk, path, alias, identity, Some(temp));
      if !done {
        disk.RemoveAll(temp);
        return;
      }
      if path < temp {
        UntouchedHasSentinels(codec, disk.fs, path, alias, identity, temp);
        FillPlaceholder(disk, path, temp, tree);
      } else {
        SwapPlaceholder(disk, path, temp, tree);
      }
    } else {
      done := Names(disk.fs, path) <= NameIn(path, Some(temp));
      if !done {
        disk.RemoveAll(temp);
        return;
      }
      FillDestination(disk, path, temp, tree);
    }
  }

  /** The part of `clone` from git on, with a temporary directory. */
  method CloneByTemp(disk: Disk, codec: Codec, path: Abs, alias: string, identity: string, placeholder: bool, temp: Abs,
                     during: Fs -> Fs, git: GitOutcome) returns (result: CloneResult)
    requires disk.Valid() && Lawful(codec) && path != [] && temp != [] && IsFolder(disk.fs, path) && temp != path
    requires disk.fs[temp := Folder] == disk.fs && Dir(temp) == (if path < temp then path else Dir(path))
    requires path < temp ==> temp[|path|] !in SentinelFiles()
    requires EditsInside(during, path, temp) && GitOk(git, temp[|temp| - 1])
    modifies disk
    ensures disk.Valid() && !result.UnsafePath?
    ensures result.Cloned? == (git.Finished?
        && Fillable(codec, AfterGit(old(disk.fs), temp, during, git.tree), path, alias, identity, placeholder, temp))
    ensures result.Cloned? ==> Replaced(disk.fs, old(disk.fs), path, temp, git.tree)
    ensures !result.Cloned? ==> LeftToUser(disk.fs, during(old(disk.fs)), temp)
  {
    ghost var start := disk.fs;
    disk.fs := during(disk.fs);
    ghost var edited := disk.fs;
    TempOutside(start, edited, path, temp);
    if git.FailedAfter? {
      if git.partial.Some? { disk.Plant(temp, git.partial.value); }
      GivenUp(edited, disk.fs, temp);
      disk.RemoveAll(temp);
      return PathConflict;
    }
    disk.Plant(temp, git.tree);
    ghost var cloned := disk.fs;
    GivenUp(edited, cloned, temp);
    ReadyToFill(edited, path, temp, git.tree);
    var done := FinishByTemp(disk, codec, path, alias, identity, placeholder, temp, git.tree);
    if !done { return PathConflict; }
    ReplacedSinceStart(disk.fs, cloned, start, during, path, temp, git.tree);
    return Cloned;
  }

  /** All that a clone that gave up leaves is what the user made of the destination. */
  ghost predicate LeftToUser(fs: Fs, edited: Fs, temp: Abs) {
    forall q: Abs {:trigger At(fs, q)} :: At(fs, q) == if temp <= q then None else At(edited, q)
  }

  lemma TempOutside(start: Fs, edited: Fs, path: Abs, temp: Abs)
    requires Rooted(start) && Rooted(edited) && IsFolder(start, path) && path != [] && temp != [] && temp != path
    requires start[temp := Folder] == start && Dir(temp) == if path < temp then path else Dir(path)
    requires forall q: Abs {:trigger At(edited, q)} :: !(path < q) || temp <= q ==> At(edited, q) == At(start, q)
    ensures IsFolder(edited, path) && IsFolder(edited, temp) && IsFolder(edited, Dir(temp)) && !(temp <= path)
    ensures path <= temp ==> path < temp
  {
  }

  lemma GivenUp(edited: Fs, planted: Fs, temp: Abs)
    requires planted == edited || exists tree :: planted == Planted(edited, temp, tree)
    ensures LeftToUser(Without(planted, temp), edited, temp)
  {
  }

  lemma ReadyToFill(edited: Fs, path: Abs, temp: Abs, tree: Fs)
    requires Rooted(edited) && Rooted(tree) && path != [] && temp != [] && IsFolder(edited, path) && !(temp <= path)
    requires IsFolder(edited, Dir(temp)) && (Dir(temp) == path || Dir(temp) == Dir(path))
        && [temp[|temp| - 1]] !in tree.Keys
    ensures TempFor(Planted(edited, temp, tree), path, temp, tree)
  {
    PlantedIsRooted(edited, temp, tree);
    PlantedAt(edited, temp, tree, path);
    forall r: Abs ensures At(Planted(edited, temp, tree), temp + r) == At(tree, r) {
      PlantedAt(edited, temp, tree, temp + r);
      assert (temp + r)[|temp|..] == r;
    }
  }

  lemma ReplacedSinceStart(fs: Fs, cloned: Fs, start: Fs, during: Fs -> Fs, path: Abs, temp: Abs, tree: Fs)
    requires Replaced(fs, cloned, path, temp, tree) && cloned == Planted(during(start), temp, tree)
    requires EditsInside(during, path, temp) && Rooted(start) && IsFolder(start, path)
    ensures Replaced(fs, start, path, temp, tree)
  {
    forall q: Abs ensures At(fs, q) == ReplacedAt(start, path, temp, tree, q) {
      PlantedAt(during(start), temp, tree, q);
      assert At(during(start), q) == At(during(start), q);
    }
  }

  // ----- all four routes -----

  /** The destination is the tree, missing parents are folders, and all else is as it was. */
  function ClonedAt(before: Fs, path: Abs, tree: Fs, q: Abs): Option<Node> {
    if path <= q then At(tree, q[|path|..])
    else if q <= path && At(before, q).None? then Some(Folder)
    else At(before, q)
  }

  ghost predicate IsCloned(fs: Fs, before: Fs, path: Abs, tree: Fs) {
    forall q: Abs {:trigger At(fs, q)} :: At(fs, q) == ClonedAt(before, path, tree, q)
  }

  /** What is demanded of a destination folder before git runs. */
  predicate CanStart(codec: Codec, fs: Fs, path: Abs, alias: string, identity: string, placeholder: bool) {
    if placeholder then Untouched(codec, fs, path, alias, identity, {}) && alias != "" && identity != ""
    else Empty(fs, path)
  }

  method CheckDestination(disk: Disk, codec: Codec, path: Abs, alias: string, identity: string, placeholder: bool)
    returns (ok: bool)
    requires disk.Valid() && Lawful(codec)
    ensures ok == CanStart(codec, disk.fs, path, alias, identity, placeholder)
  {
    if placeholder {
      ok := OwnedByAllowing(codec, disk, path, alias, identity, None);
    } else {
      ok := Empty(disk.fs, path);
    }
  }

  /** Exactly when a clone succeeds. */
  ghost predicate Succeeds(codec: Codec, fs: Fs, root: Option<Abs>, path: Abs, alias: string, identity: string,
                           placeholder: bool, temp: Abs, during: Fs -> Fs, git: GitOutcome)
  {
    && git.Finished? && WithinRoot(fs, root, path)
    && match Stat(fs, path)
       case NotExist => true
       case Found(Folder) =>
         && CanStart(codec, fs, path, alias, identity, placeholder)
         && Fillable(codec, AfterGit(fs, temp, during, git.tree), path, alias, identity, placeholder, temp)
       case _ => false
  }

  /** What a clone that failed leaves: the parents it made, or what the user made of the destination meanwhile. */
  ghost predicate IsLeft(fs: Fs, before: Fs, path: Abs, temp: Abs, during: Fs -> Fs) {
    || fs == before
    || (path !in before && fs == WithFolders(before, Dir(path)))
    || (IsFolder(before, path) && LeftToUser(fs, during(before[temp := Folder]), temp))
  }

  lemma MadeParents(fs: Fs, planted: Fs, path: Abs, tree: Fs)
    requires Rooted(fs) && path != [] && path !in fs
    ensures IsCloned(Planted(WithFolders(fs, Dir(path)), path, tree), fs, path, tree)
    ensures Without(WithFolders(fs, Dir(path)), path) == WithFolders(fs, Dir(path))
    ensures planted == Planted(WithFolders(fs, Dir(path)), path, tree) ==>
        Without(planted, path) == WithFolders(fs, Dir(path))
  {
    var made := WithFolders(fs, Dir(path));
    forall q: Abs ensures At(Planted(made, path, tree), q) == ClonedAt(fs, path, tree, q) {
      PlantedAt(made, path, tree, q);
      WithFoldersAt(fs, Dir(path), q);
      if q != path && q <= path { assert q <= Dir(path); }
    }
    forall q | q in made ensures !(path <= q) {
      WithFoldersAt(fs, Dir(path), q);
      if path <= q { NothingBelow(fs, path, q); }
    }
    if planted == Planted(made, path, tree) {
      forall q: Abs ensures At(Without(planted, path), q) == At(made, q) {
        WithoutAt(planted, path, q);
        PlantedAt(made, path, tree, q);
      }
      SameAt(Without(planted, path), made);
    }
  }

  lemma SameAt(a: Fs, b: Fs)
    requires forall q: Abs :: At(a, q) == At(b, q)
    ensures a == b
  {
    forall q | q in a ensures q in b && a[q] == b[q] { assert At(a, q) == At(b, q); }
    forall q | q in b ensures q in a { assert At(a, q) == At(b, q); }
  }

  /** The direct route: git creates the destination. */
  method CloneDirectly(disk: Disk, path: Abs, git: GitOutcome, ghost name: string) returns (ok: bool)
    requires disk.Valid() && path != [] && Stat(disk.fs, path) == NotExist && GitOk(git, name)
    modifies disk
    ensures disk.Valid() && ok == git.Finished?
    ensures if ok then IsCloned(disk.fs, old(disk.fs), path, git.tree)
        else disk.fs == WithFolders(old(disk.fs), Dir(path))
  {
    ghost var before := disk.fs;
    var made := disk.MkdirAll(Dir(path));
    WithFoldersAt(before, Dir(path), Dir(path));
    if git.FailedAfter? {
      if git.partial.Some? {
        disk.Plant(path, git.partial.value);
        MadeParents(before, disk.fs, path, git.partial.value);
      } else {
        MadeParents(before, disk.fs, path, map[]);
      }
      disk.RemoveAll(path);
      return false;
    }
    disk.Plant(path, git.tree);
    MadeParents(before, disk.fs, path, git.tree);
    return true;
  }

  lemma ReplacedIsCloned(fs: Fs, before: Fs, path: Abs, temp: Abs, tree: Fs)
    requires Rooted(before) && IsFolder(before, path) && temp !in before && temp != [] && !(temp <= path)
    requires Replaced(fs, before[temp := Folder], path, temp, tree)
    ensures IsCloned(fs, before, path, tree)
  {
    forall q: Abs ensures At(fs, q) == ClonedAt(before, path, tree, q) {
      assert At(fs, q) == ReplacedAt(before[temp := Folder], path, temp, tree, q);
      if temp <= q { NothingBelow(before, temp, q); }
      if q <= path { AncestorsAreFolders(before, path, q); }
    }
  }

  /** `clone` */
  method Clone(disk: Disk, codec: Codec, root: Option<Abs>, path: Abs, alias: string, identity: string,
               placeholder: bool, name: string, during: Fs -> Fs, git: GitOutcome) returns (result: CloneResult)
    requires disk.Valid() && Lawful(codec) && path != [] && Plain(name) && name !in SentinelFiles() && GitOk(git, name)
    requires TempPath(root, path, name) !in disk.fs && EditsInside(during, path, TempPath(root, path, name))
    modifies disk
    ensures disk.Valid() && CloneOutcome(result, disk.fs, codec, old(disk.fs), root, path, alias, identity, placeholder,
                                         TempPath(root, path, name), during, git)
    ensures root.Some? && !(root.value <= path) ==> !result.Cloned? && disk.fs == old(disk.fs)
    ensures root.None? || (root.value <= path && FoldersAbove(old(disk.fs), path)) ==> !result.UnsafePath?
  {
    ghost var before := disk.fs;
    result := CloneTo(disk, codec, root, path, alias, identity, placeholder, name, during, git);
    if root.Some? {
      ClonesStayInside(result, disk.fs, codec, before, root.value, path, alias, identity, placeholder,
          TempPath(root, path, name), during, git);
    }
  }

  /** The part of `clone` after the paths were cleaned. */
  method CloneTo(disk: Disk, codec: Codec, root: Option<Abs>, path: Abs, alias: string, identity: string,
                 placeholder: bool, name: string, during: Fs -> Fs, git: GitOutcome) returns (result: CloneResult)
    requires disk.Valid() && Lawful(codec) && path != [] && Plain(name) && name !in SentinelFiles() && GitOk(git, name)
    requires TempPath(root, path, name) !in disk.fs && EditsInside(during, path, TempPath(root, path, name))
    modifies disk
    ensures disk.Valid() && CloneOutcome(result, disk.fs, codec, old(disk.fs), root, path, alias, identity, placeholder,
                                         TempPath(root, path, name), during, git)
  {
    match Stat(disk.fs, path) {
      case Found(File(_)) => return PathConflict;
      case NotInFolder => return PathConflict;
      case NotExist =>
        if !WithinRoot(disk.fs, root, path) { return UnsafePath; }
        var ok := CloneDirectly(disk, path, git, name);
        result := if ok then Cloned else PathConflict;
      case Found(Folder) =>
        result := CloneIntoFolder(disk, codec, root, path, alias, identity, placeholder, name, during, git);
    }
  }

  /** What a clone comes to, by the kind of destination. */
  ghost predicate CloneOutcome(result: CloneResult, fs: Fs, codec: Codec, before: Fs, root: Option<Abs>, path: Abs,
                               alias: string, identity: string, placeholder: bool, temp: Abs, during: Fs -> Fs,
                               git: GitOutcome)
  {
    match Stat(before, path)
    case NotExist =>
      if !WithinRoot(before, root, path) then result.UnsafePath? && fs == before
      else if git.Finished? then result.Cloned? && IsCloned(fs, before, path, git.tree)
      else result.PathConflict? && fs == WithFolders(before, Dir(path))
    case Found(Folder) =>
      FolderOutcome(result, fs, codec, before, root, path, alias, identity, placeholder, temp, during, git)
    case _ => result.PathConflict? && fs == before
  }

  /** Outside of the workspace nothing is cloned, and nothing changes; inside of it no clone is refused for its path. */
  lemma ClonesStayInside(result: CloneResult, fs: Fs, codec: Codec, before: Fs, root: Abs, path: Abs, alias: string,
                         identity: string, placeholder: bool, temp: Abs, during: Fs -> Fs, git: GitOutcome)
    requires Rooted(before)
    requires CloneOutcome(result, fs, codec, before, Some(root), path, alias, identity, placeholder, temp, during, git)
    ensures !(root <= path) ==> !result.Cloned? && fs == before
    ensures root <= path && FoldersAbove(before, path) ==> !result.UnsafePath?
  {
    WithinRootIsInside(before, root, path);
  }

  /** Whichever route a clone takes, it has the same effect, and it succeeds exactly if the destination could be filled
      both before and after git ran.  A clone that fails leaves the destination to the user. */
  lemma AllRoutesAgree(result: CloneResult, fs: Fs, codec: Codec, before: Fs, root: Option<Abs>, path: Abs,
                       alias: string, identity: string, placeholder: bool, temp: Abs, during: Fs -> Fs, git: GitOutcome)
    requires CloneOutcome(result, fs, codec, before, root, path, alias, identity, placeholder, temp, during, git)
    ensures result.Cloned? <==>
            Succeeds(codec, before, root, path, alias, identity, placeholder, temp, during, git)
    ensures result.Cloned? ==> IsCloned(fs, before, path, git.tree)
    ensures !result.Cloned? ==> IsLeft(fs, before, path, temp, during)
  {
  }

  lemma NamesAfterGit(edited: Fs, path: Abs, temp: Abs, tree: Fs, q: Abs)
    requires Rooted(edited) && q in edited && path < q && !(temp <= q) && temp != []
    ensures q[|path|] in Names(Planted(edited, temp, tree), path) - NameIn(path, Some(temp))
    ensures At(Planted(edited, temp, tree), path + [q[|path|]]) == At(edited, path + [q[|path|]])
  {
    var entry := q[..|path| + 1];
    if |q| > |path| + 1 { InFolder(edited, entry, q); }
    PlantedAt(edited, temp, tree, entry);
    assert entry == path + [q[|path|]] && entry <= q;
    assert q[|path|] in q;
    NameAt(Planted(edited, temp, tree), path, q[|path|]);
  }

  lemma FileHasNothingBelow(fs: Fs, path: Abs, q: Abs)
    requires Rooted(fs) && q in fs && path < q && Plain(q[|path|])
    requires path + [q[|path|]] in fs && fs[path + [q[|path|]]].File?
    ensures |q| == |path| + 1
  {
    var entry := path + [q[|path|]];
    assert entry == q[..|path| + 1];
    if |q| > |path| + 1 { InFolder(fs, entry, q); }
  }

  /** What is in a folder that may be filled, besides the temporary directory, is a file of an untouched placeholder. */
  lemma FillableHolds(codec: Codec, edited: Fs, path: Abs, alias: string, identity: string, placeholder: bool,
      temp: Abs, tree: Fs, q: Abs)
    requires Rooted(edited) && q in edited && path < q && !(temp <= q) && temp != []
    requires Fillable(codec, Planted(edited, temp, tree), path, alias, identity, placeholder, temp)
    ensures placeholder && q[|path|] in SentinelFiles() && |q| == |path| + 1
  {
    NamesAfterGit(edited, path, temp, tree, q);
    assert q[|path|] in q;
    if placeholder {
      SentinelIsFile(codec, Planted(edited, temp, tree), path, alias, identity, NameIn(path, Some(temp)), q[|path|]);
      FileHasNothingBelow(edited, path, q);
    }
  }

  /** Nothing is lost in a folder: if the clone succeeds, all that was in it at the end of git were the files of an
      untouched placeholder; if it fails after git has run, all is as the user left it. */
  lemma NothingIsLost(result: CloneResult, fs: Fs, codec: Codec, before: Fs, path: Abs, alias: string, identity: string,
                      placeholder: bool, temp: Abs, during: Fs -> Fs, git: GitOutcome, q: Abs)
    requires TempOutcome(result, fs, codec, before, path, alias, identity, placeholder, temp, during, git)
    requires Rooted(during(before[temp := Folder])) && temp != [] && !(temp <= q) && path < q
    requires q in during(before[temp := Folder])
    ensures result.Cloned? ==> placeholder && q[|path|] in SentinelFiles() && |q| == |path| + 1
    ensures !result.Cloned? ==> At(fs, q) == At(during(before[temp := Folder]), q)
  {
    if result.Cloned? {
      FillableHolds(codec, during(before[temp := Folder]), path, alias, identity, placeholder, temp, git.tree, q);
    }
  }

  /** The part of `clone` for a destination that is a folder. */
  method CloneIntoFolder(disk: Disk, codec: Codec, root: Option<Abs>, path: Abs, alias: string, identity: string,
                         placeholder: bool, name: string, during: Fs -> Fs, git: GitOutcome)
    returns (result: CloneResult)
    requires disk.Valid() && Lawful(codec) && path != [] && Plain(name) && name !in SentinelFiles() && GitOk(git, name)
    requires TempPath(root, path, name) !in disk.fs && EditsInside(during, path, TempPath(root, path, name))
    requires IsFolder(disk.fs, path)
    modifies disk
    ensures disk.Valid() && FolderOutcome(result, disk.fs, codec, old(disk.fs), root, path, alias, identity,
        placeholder, TempPath(root, path, name), during, git)
  {
    var fillable := CheckDestination(disk, codec, path, alias, identity, placeholder);
    if !fillable { return PathConflict; }
    if !WithinRoot(disk.fs, root, path) { return UnsafePath; }
    result := CloneBeside(disk, codec, root, path, alias, identity, placeholder, name, during, git);
  }

  /** The temporary directory is made, and the rest is done with it. */
  method CloneBeside(disk: Disk, codec: Codec, root: Option<Abs>, path: Abs, alias: string, identity: string,
                     placeholder: bool, name: string, during: Fs -> Fs, git: GitOutcome)
    returns (result: CloneResult)
    requires disk.Valid() && Lawful(codec) && path != [] && Plain(name) && name !in SentinelFiles() && GitOk(git, name)
    requires TempPath(root, path, name) !in disk.fs && EditsInside(during, path, TempPath(root, path, name))
    requires IsFolder(disk.fs, path)
    modifies disk
    ensures disk.Valid()
    ensures TempOutcome(result, disk.fs, codec, old(disk.fs), path, alias, identity, placeholder,
                        TempPath(root, path, name), during, git)
  {
    ghost var before := disk.fs;
    var temp := TempPath(root, path, name);
    TempIsApart(before, root, path, name);
    var made := disk.MkdirTemp(TempParent(root, path), name);
    result := CloneByTemp(disk, codec, path, alias, identity, placeholder, temp, during, git);
    if result.Cloned? { ReplacedIsCloned(disk.fs, before, path, temp, git.tree); }
  }

  /** What a clone by way of a temporary directory comes to. */
  ghost predicate TempOutcome(result: CloneResult, fs: Fs, codec: Codec, before: Fs, path: Abs, alias: string,
                              identity: string, placeholder: bool, temp: Abs, during: Fs -> Fs, git: GitOutcome)
  {
    if result.Cloned? then
      && git.Finished? && IsCloned(fs, before, path, git.tree)
      && Fillable(codec, AfterGit(before, temp, during, git.tree), path, alias, identity, placeholder, temp)
    else
      && result.PathConflict? && LeftToUser(fs, during(before[temp := Folder]), temp)
      && (git.Finished? ==>
            !Fillable(codec, AfterGit(before, temp, during, git.tree), path, alias, identity, placeholder, temp))
  }

  /** What a clone into a folder comes to. */
  ghost predicate FolderOutcome(result: CloneResult, fs: Fs, codec: Codec, before: Fs, root: Option<Abs>, path: Abs,
                                alias: string, identity: string, placeholder: bool, temp: Abs, during: Fs -> Fs,
                                git: GitOutcome)
  {
    if WithinRoot(before, root, path) && CanStart(codec, before, path, alias, identity, placeholder) then
      TempOutcome(result, fs, codec, before, path, alias, identity, placeholder, temp, during, git)
    else !result.Cloned? && fs == before && (result.UnsafePath? ==> !WithinRoot(before, root, path))
  }

  lemma TempIsApart(fs: Fs, root: Option<Abs>, path: Abs, name: string)
    requires Rooted(fs) && IsFolder(fs, path) && path != [] && Plain(name) && TempPath(root, path, name) !in fs
    ensures
      var temp := TempPath(root, path, name);
      && IsFolder(fs, TempParent(root, path)) && temp != path && !(temp <= path) && temp[|temp| - 1] == name
      && Dir(temp) == (if path < temp then path else Dir(path)) && (path < temp ==> temp[|path|] == name)
      && (temp in fs[temp := Folder]) && fs[temp := Folder][temp := Folder] == fs[temp := Folder]
  {
  }
}
