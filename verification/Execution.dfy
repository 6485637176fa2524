/** Carrying out a hydration plan: a check of all the paths first, and then one clone after the other. */
module Execution {
  import opened Paths
  import opened Names
  import opened Projects
  import opened Disks
  import opened Placeholders
  import opened Cloning
  import opened Planner

  // ----- a clone nobody interferes with -----

  function NoEdits(): Fs -> Fs { (fs: Fs) => fs }

  const CLONE_PREFIX := ".codemesh-clone-"

  function CloneCandidate(): nat -> string { (n: nat) => CLONE_PREFIX + Decimal(n) }

  lemma CloneCandidatesArePlain(n: nat)
    ensures Plain(CloneCandidate()(n))
  {
  }

  lemma CloneCandidatesInjective()
    ensures Injective(CloneCandidate())
  {
    forall m: nat, n: nat | CloneCandidate()(m) == CloneCandidate()(n) ensures m == n {
      assert CloneCandidate()(m)[|CLONE_PREFIX|..] == Decimal(m) && CloneCandidate()(n)[|CLONE_PREFIX|..] == Decimal(n);
      DecimalInjective(m, n);
    }
  }

  /** A name for a temporary directory that is not in use where it is to be, nor in the tree. */
  method TempName(fs: Fs, parent: Abs, git: GitOutcome) returns (name: string)
    ensures Plain(name) && parent + [name] !in fs && name !in SentinelFiles()
    ensures git.Finished? ==> [name] !in git.tree.Keys
  {
    var used := Disks.Names(fs, parent) + SentinelFiles() + if git.Finished? then Disks.Names(git.tree, []) else {};
    CloneCandidatesInjective();
    name := Search(CloneCandidate(), used);
    CloneCandidatesArePlain(FirstFree(CloneCandidate(), used, 0));
    NameAt(fs, parent, name);
    if git.Finished? {
      NameAt(git.tree, [], name);
      assert [] + [name] == [name];
    }
  }

  /** What git leaves is a rooted tree, with `.git` in it if it finished. */
  ghost predicate GitIsSane(git: GitOutcome) {
    match git
    case Finished(tree) => Rooted(tree) && IsFolder(tree, BarrierPath([]))
    case FailedAfter(partial) => partial.Some? ==> Rooted(partial.value)
  }

  lemma SentinelsStay(fs: Fs, path: Abs, temp: Abs, tree: Fs)
    requires temp != [] && !(temp <= path) && temp[|temp| - 1] !in SentinelFiles()
    ensures
      var after := AfterGit(fs, temp, NoEdits(), tree);
      && At(after, MetadataPath(path)) == At(fs, MetadataPath(path))
      && At(after, NotePath(path)) == At(fs, NotePath(path))
      && At(after, BarrierPath(path)) == At(fs, BarrierPath(path))
  {
  }

  lemma StillUntouched(codec: Codec, fs: Fs, path: Abs, alias: string, identity: string, temp: Abs, tree: Fs)
    requires Rooted(fs) && temp !in fs && temp != [] && !(temp <= path) && temp[|temp| - 1] !in SentinelFiles()
    requires Untouched(codec, fs, path, alias, identity, {})
    ensures Untouched(codec, AfterGit(fs, temp, NoEdits(), tree), path, alias, identity, NameIn(path, Some(temp)))
  {
    SameNames(fs, path, temp, tree);
    PlantedAt(fs[temp := Folder], temp, tree, path);
    SentinelsStay(fs, path, temp, tree);
  }

  lemma StillVacant(fs: Fs, path: Abs, temp: Abs, tree: Fs)
    requires Rooted(fs) && temp !in fs && temp != [] && !(temp <= path) && Empty(fs, path)
    ensures Vacant(AfterGit(fs, temp, NoEdits(), tree), path, temp)
  {
  }

  /** With nobody interfering, a destination is the same after git as before. */
  lemma StillFillable(codec: Codec, fs: Fs, path: Abs, alias: string, identity: string, placeholder: bool, temp: Abs,
                      tree: Fs)
    requires Rooted(fs) && IsFolder(fs, path) && temp !in fs && temp != [] && !(temp <= path)
    requires temp[|temp| - 1] !in SentinelFiles()
    requires CanStart(codec, fs, path, alias, identity, placeholder)
    ensures Fillable(codec, AfterGit(fs, temp, NoEdits(), tree), path, alias, identity, placeholder, temp)
  {
    if placeholder {
      StillUntouched(codec, fs, path, alias, identity, temp, tree);
    } else {
      StillVacant(fs, path, temp, tree);
    }
  }

  lemma SameNames(fs: Fs, path: Abs, temp: Abs, tree: Fs)
    requires Rooted(fs) && temp !in fs && temp != [] && !(temp <= path)
    ensures Disks.Names(AfterGit(fs, temp, NoEdits(), tree), path) - NameIn(path, Some(temp)) == Disks.Names(fs, path)
  {
    var after := AfterGit(fs, temp, NoEdits(), tree);
    forall name | name in Disks.Names(after, path) && name !in NameIn(path, Some(temp))
      ensures name in Disks.Names(fs, path)
    {
      NameIsPlain(after, path, name);
      PlantedAt(fs[temp := Folder], temp, tree, path + [name]);
      AllowedName(path, name, Some(temp));
      assert temp <= path + [name] ==> temp == path + [name];
      NameAt(fs, path, name);
    }
    forall name | name in Disks.Names(fs, path)
      ensures name in Disks.Names(after, path) && name !in NameIn(path, Some(temp))
    {
      NameIsPlain(fs, path, name);
      PlantedAt(fs[temp := Folder], temp, tree, path + [name]);
      AllowedName(path, name, Some(temp));
      assert temp <= path + [name] ==> temp == path + [name];
      NameAt(after, path, name);
    }
  }

  /** What a clone comes to when nobody interferes. */
  ghost predicate PlainOutcome(result: CloneResult, fs: Fs, codec: Codec, before: Fs, root: Option<Abs>, a: Action,
                               git: GitOutcome)
  {
    && (result.Cloned? == (git.Finished? && MayClone(codec, before, root, a)))
    && (result.Cloned? ==> IsCloned(fs, before, a.path, git.tree))
    && (!result.Cloned? ==> fs == before || (a.path !in before && fs == WithFolders(before, Dir(a.path))))
  }

  ghost predicate MayClone(codec: Codec, fs: Fs, root: Option<Abs>, a: Action) {
    && WithinRoot(fs, root, a.path)
    && (Stat(fs, a.path) == NotExist ||
        (IsFolder(fs, a.path) && CanStart(codec, fs, a.path, a.alias, a.row.remote, a.state == PlaceholderThere)))
  }

  lemma LeftAlone(fs: Fs, before: Fs, temp: Abs)
    requires Rooted(before) && temp !in before && LeftToUser(fs, before[temp := Folder], temp)
    ensures fs == before
  {
    forall q: Abs ensures At(fs, q) == At(before, q) {
      assert At(fs, q) == if temp <= q then None else At(before[temp := Folder], q);
      if temp <= q { NothingBelow(before, temp, q); }
    }
    SameAt(fs, before);
  }

  lemma OutcomeIsPlain(result: CloneResult, fs: Fs, codec: Codec, before: Fs, root: Option<Abs>, a: Action, temp: Abs,
                       git: GitOutcome)
    requires Rooted(before) && a.path != [] && temp !in before && temp != [] && temp[|temp| - 1] !in SentinelFiles()
    requires CloneOutcome(result, fs, codec, before, root, a.path, a.alias, a.row.remote, a.state == PlaceholderThere,
                          temp, NoEdits(), git)
    ensures PlainOutcome(result, fs, codec, before, root, a, git)
  {
    if Stat(before, a.path) == Found(Folder) {
      assert IsFolder(before, a.path);
      if temp <= a.path { AncestorsAreFolders(before, a.path, temp); }
      if CanStart(codec, before, a.path, a.alias, a.row.remote, a.state == PlaceholderThere) {
        if git.Finished? {
          StillFillable(codec, before, a.path, a.alias, a.row.remote, a.state == PlaceholderThere, temp, git.tree);
        }
        if !result.Cloned? && WithinRoot(before, root, a.path) { LeftAlone(fs, before, temp); }
      }
    }
  }

  method CloneAction(disk: Disk, codec: Codec, root: Option<Abs>, a: Action, git: GitOutcome)
    returns (result: CloneResult)
    requires disk.Valid() && Placeholders.Lawful(codec) && a.path != [] && GitIsSane(git)
    modifies disk
    ensures disk.Valid() && PlainOutcome(result, disk.fs, codec, old(disk.fs), root, a, git)
  {
    var name := TempName(disk.fs, TempParent(root, a.path), git);
    result := Clone(disk, codec, root, a.path, a.alias, a.row.remote, a.state == PlaceholderThere, name, NoEdits(),
        git);
    OutcomeIsPlain(result, disk.fs, codec, old(disk.fs), root, a, TempPath(root, a.path, name), git);
  }

  lemma MayCloneIsInside(codec: Codec, fs: Fs, root: Abs, a: Action)
    requires Rooted(fs) && MayClone(codec, fs, Some(root), a)
    ensures root <= a.path
  {
    WithinRootIsInside(fs, root, a.path);
  }

  /** A clone that was planned for what is on the disk succeeds as soon as git does, if the path is in the workspace. */
  lemma PlannedCloneSucceeds(codec: Codec, fs: Fs, root: Option<Abs>, p: Project)
    requires Rooted(fs) && Placeholders.Lawful(codec) && Projects.Complete(p)
    requires Classify(codec, fs, root, p).kind == CloneIt && (root.Some? ==> root.value <= HydrationPath(p))
    ensures MayClone(codec, fs, root, Classify(codec, fs, root, p))
  {
    StatIsFoldersAbove(fs, HydrationPath(p));
    if root.Some? { WithinRootIsInside(fs, root.value, HydrationPath(p)); }
  }

  // ----- the check of all paths first -----

  datatype ExecuteError = Refused | DoesNotMatch | Overlapping | CloneFailed

  /** An action whose directory the plan relies on: one to clone, or one that is there. */
  predicate Occupies(a: Action) { a.kind == CloneIt || (a.kind == NoAction && a.state == Present) }

  predicate PathsApart(a: Action, b: Action) { Occupies(a) && Occupies(b) ==> !Overlaps(a.path, b.path) }

  ghost predicate Passes(actions: seq<Action>, matches: Action -> bool) {
    && (forall a <- actions :: a.kind != Refuse && (a.kind == NoAction && a.state == Present ==> matches(a)))
    && forall i, j {:trigger PathsApart(actions[i], actions[j])} :: 0 <= i < j < |actions| ==>
         PathsApart(actions[i], actions[j])
  }

  predicate ClonesOrIsThere(a: Action) {
    match a.kind
    case CloneIt => true
    case NoAction => a.state == Present
    case Refuse => false
  }

  /** A plan passes exactly if nothing is refused, everything present matches its project, and no path that is cloned
      to, or present, contains another. */
  lemma PassingIs(actions: seq<Action>, matches: Action -> bool)
    ensures Passes(actions, matches) <==>
        && (forall a <- actions :: a.kind != Refuse)
        && (forall a <- actions :: a.kind == NoAction && a.state == Present ==> matches(a))
        && (forall i, j {:trigger Comparable(actions[i].path, actions[j].path)} :: 0 <= i < j < |actions| ==>
              ClonesOrIsThere(actions[i]) && ClonesOrIsThere(actions[j]) ==>
                !Comparable(actions[i].path, actions[j].path))
  {
    forall i, j | 0 <= i < j < |actions|
      ensures PathsApart(actions[i], actions[j]) <==>
          (ClonesOrIsThere(actions[i]) && ClonesOrIsThere(actions[j]) ==>
             !Comparable(actions[i].path, actions[j].path))
    {
      OverlapsIsComparable(actions[i].path, actions[j].path);
    }
  }

  /** `addPlannedPath` */
  method AddPlannedPath(planned: map<Abs, string>, path: Abs, alias: string) returns (added: Option<map<Abs, string>>)
    ensures added == if exists other <- planned :: Overlaps(path, other) then None else Some(planned[path := alias])
  {
    var left := planned.Keys;
    while left != {}
      invariant left <= planned.Keys && forall other :: other in planned && other !in left ==> !Overlaps(path, other)
    {
      var other :| other in left;
      left := left - {other};
      if Overlaps(path, other) { return None; }
    }
    return Some(planned[path := alias]);
  }

  ghost predicate PassesUpTo(actions: seq<Action>, matches: Action -> bool, n: nat, paths: set<Abs>) {
    && n <= |actions| && Passes(actions[..n], matches)
    && paths == set i | 0 <= i < n && Occupies(actions[i]) :: actions[i].path
  }

  lemma OneMoreFails(actions: seq<Action>, matches: Action -> bool, n: nat, paths: set<Abs>)
    requires n < |actions| && PassesUpTo(actions, matches, n, paths)
    requires actions[n].kind == Refuse || (actions[n].kind == NoAction && actions[n].state == Present
        && !matches(actions[n]))
      || (Occupies(actions[n]) && exists other <- paths :: Overlaps(actions[n].path, other))
    ensures !Passes(actions, matches)
  {
    assert actions[n] in actions;
    if Occupies(actions[n]) && exists other <- paths :: Overlaps(actions[n].path, other) {
      var other :| other in paths && Overlaps(actions[n].path, other);
      var i :| 0 <= i < n && Occupies(actions[i]) && actions[i].path == other;
      OverlapsIsComparable(actions[n].path, other);
      OverlapsIsComparable(other, actions[n].path);
      assert !PathsApart(actions[i], actions[n]);
    }
  }

  lemma OneMorePasses(actions: seq<Action>, matches: Action -> bool, n: nat, paths: set<Abs>)
    requires n < |actions| && PassesUpTo(actions, matches, n, paths)
    requires actions[n].kind != Refuse && (actions[n].kind == NoAction && actions[n].state == Present ==>
        matches(actions[n]))
    requires Occupies(actions[n]) ==> forall other <- paths :: !Overlaps(actions[n].path, other)
    ensures PassesUpTo(actions, matches, n + 1, paths + if Occupies(actions[n]) then {actions[n].path} else {})
  {
    var earlier, now := actions[..n], actions[..n + 1];
    forall i, j | 0 <= i < j < n + 1 ensures PathsApart(now[i], now[j]) {
      if j < n {
        assert PathsApart(earlier[i], earlier[j]);
      } else if Occupies(actions[i]) && Occupies(actions[n]) {
        assert actions[i].path in paths;
        OverlapsIsComparable(actions[n].path, actions[i].path);
        OverlapsIsComparable(actions[i].path, actions[n].path);
      }
    }
    assert now == earlier + [actions[n]];
  }

  /** The first loop of `Execute`; nothing is touched. */
  method Preflight(actions: seq<Action>, matches: Action -> bool) returns (error: Option<ExecuteError>)
    ensures error.None? <==> Passes(actions, matches)
    ensures error == Some(Refused) ==> exists a <- actions :: a.kind == Refuse
    ensures error == Some(DoesNotMatch) ==>
        exists a <- actions :: a.kind == NoAction && a.state == Present && !matches(a)
    ensures error != Some(CloneFailed)
  {
    var planned: map<Abs, string> := map[];
    for i := 0 to |actions|
      invariant PassesUpTo(actions, matches, i, planned.Keys)
    {
      var a := actions[i];
      assert a in actions;
      if a.kind == Refuse {
        OneMoreFails(actions, matches, i, planned.Keys);
        return Some(Refused);
      }
      if a.kind == NoAction && a.state == Present && !matches(a) {
        OneMoreFails(actions, matches, i, planned.Keys);
        return Some(DoesNotMatch);
      }
      if Occupies(a) {
        var added := AddPlannedPath(planned, a.path, a.alias);
        if added.None? {
          OneMoreFails(actions, matches, i, planned.Keys);
          return Some(Overlapping);
        }
        OneMorePasses(actions, matches, i, planned.Keys);
        planned := added.value;
      } else {
        OneMorePasses(actions, matches, i, planned.Keys);
      }
    }
    assert actions[..|actions|] == actions;
    return None;
  }

  // ----- one clone after the other -----

  ghost predicate HasTree(fs: Fs, path: Abs, tree: Fs) {
    forall q: Abs {:trigger At(fs, q)} :: path <= q ==> At(fs, q) == At(tree, q[|path|..])
  }

  /** Whether a path belongs to one of the first n clones, or is above one. */
  ghost predicate InClone(actions: seq<Action>, n: nat, q: Abs)
    requires n <= |actions|
  {
    exists i :: 0 <= i < n && actions[i].kind == CloneIt && actions[i].path <= q
  }

  ghost predicate AboveClone(actions: seq<Action>, n: nat, q: Abs)
    requires n <= |actions|
  {
    exists i :: 0 <= i < n && actions[i].kind == CloneIt && q <= actions[i].path
  }

  /** Each of the first n clones has its tree, and all else is as before, but for new parent folders. */
  ghost predicate Progress(fs: Fs, before: Fs, actions: seq<Action>, gits: seq<GitOutcome>, n: nat)
    requires n <= |actions| && |gits| == |actions|
  {
    && (forall i :: 0 <= i < n && actions[i].kind == CloneIt ==>
          gits[i].Finished? && HasTree(fs, actions[i].path, gits[i].tree))
    && (forall q: Abs {:trigger At(fs, q)} :: !InClone(actions, n, q) ==> ParentOrSame(fs, before, actions, n, q))
  }

  ghost predicate ParentOrSame(fs: Fs, before: Fs, actions: seq<Action>, n: nat, q: Abs)
    requires n <= |actions|
  {
    At(fs, q) == At(before, q) || (At(before, q).None? && At(fs, q) == Some(Folder) && AboveClone(actions, n, q))
  }

  lemma EarlierTreeStays(fs: Fs, middle: Fs, before: Fs, actions: seq<Action>, gits: seq<GitOutcome>, i: nat, n: nat)
    requires i < n < |actions| == |gits| && actions[i].kind == CloneIt && actions[n].kind == CloneIt
    requires PathsApart(actions[i], actions[n]) && gits[n].Finished? && gits[i].Finished?
    requires IsCloned(fs, middle, actions[n].path, gits[n].tree) && HasTree(middle, actions[i].path, gits[i].tree)
    ensures HasTree(fs, actions[i].path, gits[i].tree)
  {
    OverlapsIsComparable(actions[i].path, actions[n].path);
    forall q: Abs | actions[i].path <= q ensures At(fs, q) == At(gits[i].tree, q[|actions[i].path|..]) {
      assert At(fs, q) == ClonedAt(middle, actions[n].path, gits[n].tree, q);
      SiblingsApart(actions[i].path, actions[n].path, q);
      assert At(middle, q) == At(gits[i].tree, q[|actions[i].path|..]);
    }
  }

  lemma RestStays(fs: Fs, middle: Fs, before: Fs, actions: seq<Action>, gits: seq<GitOutcome>, n: nat, q: Abs)
    requires n < |actions| == |gits| && actions[n].kind == CloneIt && gits[n].Finished?
    requires IsCloned(fs, middle, actions[n].path, gits[n].tree) && Progress(middle, before, actions, gits, n)
    requires !InClone(actions, n + 1, q)
    ensures ParentOrSame(fs, before, actions, n + 1, q)
  {
  }

  lemma CloneMakesProgress(fs: Fs, middle: Fs, before: Fs, actions: seq<Action>, gits: seq<GitOutcome>,
                           matches: Action -> bool, n: nat)
    requires n < |actions| == |gits| && Passes(actions, matches) && actions[n].kind == CloneIt && gits[n].Finished?
    requires Progress(middle, before, actions, gits, n) && IsCloned(fs, middle, actions[n].path, gits[n].tree)
    ensures Progress(fs, before, actions, gits, n + 1)
  {
    forall i | 0 <= i < n + 1 && actions[i].kind == CloneIt
      ensures gits[i].Finished? && HasTree(fs, actions[i].path, gits[i].tree)
    {
      if i < n {
        assert PathsApart(actions[i], actions[n]);
        EarlierTreeStays(fs, middle, before, actions, gits, i, n);
      } else {
        forall q: Abs | actions[n].path <= q ensures At(fs, q) == At(gits[n].tree, q[|actions[n].path|..]) {
          assert At(fs, q) == ClonedAt(middle, actions[n].path, gits[n].tree, q);
        }
      }
    }
    var m := n + 1;
    forall q: Abs | !InClone(actions, m, q) ensures ParentOrSame(fs, before, actions, m, q) {
      RestStays(fs, middle, before, actions, gits, n, q);
    }
  }

  lemma NothingYet(fs: Fs, actions: seq<Action>, gits: seq<GitOutcome>)
    requires |gits| == |actions|
    ensures Progress(fs, fs, actions, gits, 0)
  {
    forall q: Abs | !InClone(actions, 0, q) ensures ParentOrSame(fs, fs, actions, 0, q) {
      assert At(fs, q) == At(fs, q);
    }
  }

  /** A directory the plan found present is left alone by all the clones. */
  lemma PresentStays(fs: Fs, before: Fs, actions: seq<Action>, gits: seq<GitOutcome>, matches: Action -> bool, n: nat,
                     p: nat, q: Abs)
    requires n <= |actions| == |gits| && Passes(actions, matches) && Progress(fs, before, actions, gits, n)
    requires p < |actions| && Occupies(actions[p]) && actions[p].kind != CloneIt && actions[p].path <= q
    ensures At(fs, q) == At(before, q)
  {
    forall i | 0 <= i < n && actions[i].kind == CloneIt ensures !(actions[i].path <= q) && !(q <= actions[i].path) {
      if i < p { assert PathsApart(actions[i], actions[p]); } else { assert PathsApart(actions[p], actions[i]); }
      OverlapsIsComparable(actions[i].path, actions[p].path);
      OverlapsIsComparable(actions[p].path, actions[i].path);
      SiblingsApart(actions[i].path, actions[p].path, q);
    }
    assert !InClone(actions, n, q) && !AboveClone(actions, n, q);
    assert At(fs, q) == At(fs, q) && ParentOrSame(fs, before, actions, n, q);
  }

  lemma NothingCloned(fs: Fs, before: Fs, actions: seq<Action>, gits: seq<GitOutcome>, n: nat)
    requires n < |actions| == |gits| && Progress(fs, before, actions, gits, n) && actions[n].kind != CloneIt
    ensures Progress(fs, before, actions, gits, n + 1)
  {
    var m := n + 1;
    forall q: Abs | !InClone(actions, m, q) ensures ParentOrSame(fs, before, actions, m, q) {
      assert !InClone(actions, n, q) by {
        if i :| 0 <= i < n && actions[i].kind == CloneIt && actions[i].path <= q {}
      }
      assert At(fs, q) == At(fs, q) && ParentOrSame(fs, before, actions, n, q);
      if AboveClone(actions, n, q) {
        var i :| 0 <= i < n && actions[i].kind == CloneIt && q <= actions[i].path;
        assert AboveClone(actions, n + 1, q);
      }
    }
  }

  /** What the clones before it leave of the place of another one is what was there. */
  lemma PlaceStays(fs: Fs, before: Fs, actions: seq<Action>, gits: seq<GitOutcome>, matches: Action -> bool, n: nat)
    requires n < |actions| == |gits| && Passes(actions, matches) && Progress(fs, before, actions, gits, n)
    requires actions[n].kind == CloneIt
    ensures SamePlace(fs, before, actions[n].path)
  {
    var path := actions[n].path;
    forall i | 0 <= i < n && actions[i].kind == CloneIt
      ensures !(actions[i].path <= path) && !(path <= actions[i].path)
    {
      assert PathsApart(actions[i], actions[n]);
      OverlapsIsComparable(actions[i].path, path);
    }
    forall q: Abs | path <= q ensures At(fs, q) == At(before, q) {
      assert !InClone(actions, n, q) by {
        if i :| 0 <= i < n && actions[i].kind == CloneIt && actions[i].path <= q {
          SiblingsApart(actions[i].path, path, q);
        }
      }
      assert At(fs, q) == At(fs, q) && ParentOrSame(fs, before, actions, n, q);
      assert !AboveClone(actions, n, q);
    }
    forall q: Abs | q <= path ensures At(fs, q) == At(before, q) || (At(before, q).None? && At(fs, q) == Some(Folder)) {
      assert !InClone(actions, n, q);
      assert At(fs, q) == At(fs, q) && ParentOrSame(fs, before, actions, n, q);
    }
  }

  lemma MayCloneStays(codec: Codec, fs: Fs, before: Fs, root: Option<Abs>, a: Action)
    requires Rooted(fs) && Rooted(before) && SamePlace(fs, before, a.path)
    ensures MayClone(codec, fs, root, a) <==> MayClone(codec, before, root, a)
  {
    SameJudged(codec, fs, before, a.path, a.alias, a.row.remote);
    SameStat(fs, before, a.path, a.path);
    if root.Some? && root.value <= a.path { SameStat(fs, before, a.path, root.value); }
    assert At(fs, a.path) == At(before, a.path);
  }

  /** A clone that goes through when its turn comes: git finishes, and its place was good for it from the beginning. */
  ghost predicate GoesThrough(codec: Codec, before: Fs, root: Option<Abs>, a: Action, git: GitOutcome) {
    a.kind == CloneIt ==> git.Finished? && MayClone(codec, before, root, a)
  }

  /** The clone actions, in order. */
  function ClonesOf(actions: seq<Action>): (clones: seq<Action>) {
    if actions == [] then [] else
      var n := |actions| - 1;
      ClonesOf(actions[..n]) + (if actions[n].kind == CloneIt then [actions[n]] else [])
  }

  /** What a failed clone adds to what the clones before it did: perhaps the parents of its own path. */
  ghost predicate GaveUp(fs: Fs, before: Fs, actions: seq<Action>, gits: seq<GitOutcome>, n: nat)
    requires n < |actions| == |gits|
  {
    exists middle {:trigger Progress(middle, before, actions, gits, n)} ::
      && Progress(middle, before, actions, gits, n)
      && (fs == middle || (actions[n].path !in middle && fs == WithFolders(middle, Dir(actions[n].path))))
  }

  /** The first n actions go through, and the next one does not. */
  ghost predicate StoppedAt(codec: Codec, before: Fs, root: Option<Abs>, actions: seq<Action>, gits: seq<GitOutcome>,
                            n: nat)
    requires n <= |actions| == |gits|
  {
    && (forall i :: 0 <= i < n ==> GoesThrough(codec, before, root, actions[i], gits[i]))
    && (n < |actions| ==> !GoesThrough(codec, before, root, actions[n], gits[n]))
  }

  /** `Execute`: no clone is started unless all paths are apart; the clones go through one after the other, and leave
      each other alone; the first one that cannot go through stops it, and those before it are done, and reported. */
  method Execute(disk: Disk, codec: Codec, root: Option<Abs>, actions: seq<Action>, gits: seq<GitOutcome>,
                 matches: Action -> bool) returns (error: Option<ExecuteError>, cloned: seq<Action>, ghost n: nat)
    requires disk.Valid() && Placeholders.Lawful(codec) && |gits| == |actions|
    requires forall a <- actions :: a.kind == CloneIt ==> a.path != []
    requires forall git <- gits :: GitIsSane(git)
    modifies disk
    ensures disk.Valid() && n <= |actions| && cloned == ClonesOf(actions[..n])
    ensures !Passes(actions, matches) ==> error.Some? && n == 0 && disk.fs == old(disk.fs)
    ensures error.None? ==>
        n == |actions| && Passes(actions, matches) && Progress(disk.fs, old(disk.fs), actions, gits, n)
    ensures error.Some? && Passes(actions, matches) ==>
        n < |actions| && actions[n].kind == CloneIt && GaveUp(disk.fs, old(disk.fs), actions, gits, n)
    ensures Passes(actions, matches) ==> StoppedAt(codec, old(disk.fs), root, actions, gits, n)
    ensures error.Some? ==> (error == Some(CloneFailed) <==> Passes(actions, matches))
    ensures root.Some? ==> forall a <- cloned :: root.value <= a.path
  {
    n, cloned := 0, [];
    error := Preflight(actions, matches);
    if error.Some? { return; }
    ghost var before := disk.fs;
    NothingYet(before, actions, gits);
    var i := 0;
    while i < |actions|
      invariant 0 <= i <= |actions| && n == i && disk.Valid() && error.None?
      invariant cloned == ClonesOf(actions[..i]) && Progress(disk.fs, before, actions, gits, i)
      invariant forall j :: 0 <= j < i ==> GoesThrough(codec, before, root, actions[j], gits[j])
      invariant root.Some? ==> forall a <- cloned :: root.value <= a.path
    {
      assert actions[..i + 1][..i] == actions[..i];
      if actions[i].kind == CloneIt {
        ghost var middle := disk.fs;
        PlaceStays(middle, before, actions, gits, matches, i);
        MayCloneStays(codec, middle, before, root, actions[i]);
        var result := CloneAction(disk, codec, root, actions[i], gits[i]);
        if !result.Cloned? { return Some(CloneFailed), cloned, n; }
        if root.Some? { MayCloneIsInside(codec, middle, root.value, actions[i]); }
        CloneMakesProgress(disk.fs, middle, before, actions, gits, matches, i);
        cloned := cloned + [actions[i]];
      } else {
        NothingCloned(disk.fs, before, actions, gits, i);
      }
      i, n := i + 1, n + 1;
    }
    assert actions[..|actions|] == actions;
  }
}
