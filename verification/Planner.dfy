/** Deciding for each project whether its directory is there, is to be cloned, or is in the way. */
module Planner {
  import opened Paths
  import opened Projects
  import opened Disks
  import opened Placeholders
  import opened Cloning

  datatype State = Present | PlaceholderThere | NothingThere | PathTaken | OutsideRoot | UnknownProject

  datatype ActionKind = NoAction | CloneIt | Refuse

  /** `row` has the path to hydrate as its local path; `observed` is the stored one. */
  datatype Action = Action(alias: string, projectID: nat, path: Abs, observed: Place, row: Project, state: State,
                           kind: ActionKind)

  /** `hydrationPath` */
  function HydrationPath(p: Project): Abs
    requires Complete(p)
  {
    if p.source == CANONICAL then p.canonicalPath.value else p.localPath.value
  }

  /** `isGitCheckoutPath` */
  predicate IsCheckout(fs: Fs, path: Abs) {
    match At(fs, BarrierPath(path))
    case Some(Folder) => true
    case Some(File(content)) => PointsToGitDir(content)
    case None => false
  }

  /** The state of what is at a path, and what is to be done about it. */
  function Judge(codec: Codec, fs: Fs, path: Abs, alias: string, identity: string): (State, ActionKind) {
    match Stat(fs, path)
    case NotExist => (NothingThere, CloneIt)
    case NotInFolder => (PathTaken, Refuse)
    case Found(node) =>
      if IsCheckout(fs, path) then (Present, NoAction)
      else match Sight(codec, fs, path)
        case Unreadable => (PathTaken, Refuse)
        case Sighted(m) =>
          if m.project == alias && m.identity == identity && Untouched(codec, fs, path, alias, identity, {}) then
            (PlaceholderThere, CloneIt)
          else (PathTaken, Refuse)
        case NoPlaceholder => if node.Folder? && Empty(fs, path) then (NothingThere, CloneIt) else (PathTaken, Refuse)
  }

  /** `classifyProject` */
  function Classify(codec: Codec, fs: Fs, root: Option<Abs>, p: Project): Action
    requires Complete(p)
  {
    var path := HydrationPath(p);
    var judged :=
      if root.Some? && p.source == CANONICAL && !(path == root.value || Within(path, root.value))
      then (OutsideRoot, Refuse)
      else Judge(codec, fs, path, p.alias, p.remote);
    Action(p.alias, p.id, path, p.localPath, p.(localPath := Some(path)), judged.0, judged.1)
  }

  /** A canonical project whose place is not in the workspace. */
  predicate Misplaced(root: Option<Abs>, p: Project)
    requires Complete(p)
  {
    root.Some? && p.source == CANONICAL && !(root.value <= p.canonicalPath.value)
  }

  /** A project is refused for its place exactly if it is canonical and its canonical path is not in the workspace.  All
      others are judged by what is at their path: the canonical one, or the local one of a local-only project. */
  lemma OutsideRootIsMisplaced(codec: Codec, fs: Fs, root: Option<Abs>, p: Project)
    requires Complete(p)
    ensures
      var a := Classify(codec, fs, root, p);
      && (a.state == OutsideRoot <==> Misplaced(root, p)) && (Misplaced(root, p) ==> a.kind == Refuse)
      && Some(a.path) == (if p.source == CANONICAL then p.canonicalPath else p.localPath)
      && (!Misplaced(root, p) ==> (a.state, a.kind) == Judge(codec, fs, a.path, p.alias, p.remote))
  {
    if root.Some? { WithinIsProperPrefix(HydrationPath(p), root.value); }
  }

  /** A project is present exactly if its directory has a `.git` folder, or a `.git` file that points to one. */
  lemma PresentHasGit(codec: Codec, fs: Fs, path: Abs, alias: string, identity: string)
    requires Rooted(fs)
    ensures
      var git := At(fs, path + [GIT_BARRIER]);
      Judge(codec, fs, path, alias, identity) == (Present, NoAction) <==>
        git == Some(Folder) || (git.Some? && git.value.File? && "gitdir:" <= Trim(git.value.content))
    ensures var judged := Judge(codec, fs, path, alias, identity); judged.0 == Present <==> judged.1 == NoAction
  {
    assert BarrierPath(path) == path + [GIT_BARRIER] && Dir(BarrierPath(path)) == path;
    if BarrierPath(path) in fs { assert IsFolder(fs, path); }
  }

  /** An untouched placeholder of the project is always recognised as one. */
  lemma PlaceholderIsRecognised(codec: Codec, fs: Fs, path: Abs, alias: string, identity: string)
    requires Lawful(codec) && Untouched(codec, fs, path, alias, identity, {}) && alias != "" && identity != ""
    ensures Judge(codec, fs, path, alias, identity) == (PlaceholderThere, CloneIt)
  {
  }

  /** A clone is planned exactly for a missing directory, an empty one, and an untouched placeholder of the project. */
  lemma CloneIsPlannedFor(codec: Codec, fs: Fs, path: Abs, alias: string, identity: string)
    requires Rooted(fs) && Lawful(codec) && alias != "" && identity != ""
    ensures Judge(codec, fs, path, alias, identity).1 == CloneIt <==>
            Stat(fs, path) == NotExist || (IsFolder(fs, path) && Empty(fs, path)) ||
            Untouched(codec, fs, path, alias, identity, {})
    ensures Judge(codec, fs, path, alias, identity) == (PlaceholderThere, CloneIt) <==>
            Untouched(codec, fs, path, alias, identity, {})
  {
    if Untouched(codec, fs, path, alias, identity, {}) {
      PlaceholderIsRecognised(codec, fs, path, alias, identity);
    } else if IsFolder(fs, path) && Empty(fs, path) {
      EmptyHasNoFiles(fs, path);
    }
  }

  /** What is judged of a place depends on nothing else. */
  lemma SameJudged(codec: Codec, fs: Fs, before: Fs, path: Abs, alias: string, identity: string)
    requires Rooted(fs) && Rooted(before) && SamePlace(fs, before, path)
    ensures Judge(codec, fs, path, alias, identity) == Judge(codec, before, path, alias, identity)
    ensures Untouched(codec, fs, path, alias, identity, {}) == Untouched(codec, before, path, alias, identity, {})
    ensures Empty(fs, path) == Empty(before, path)
  {
    SameStat(fs, before, path, path);
    SameNamesThere(fs, before, path);
    assert path <= MetadataPath(path) && path <= NotePath(path) && path <= BarrierPath(path);
    assert At(fs, path) == At(before, path) && At(fs, MetadataPath(path)) == At(before, MetadataPath(path));
    assert At(fs, NotePath(path)) == At(before, NotePath(path));
    assert At(fs, BarrierPath(path)) == At(before, BarrierPath(path));
  }

  /** What is judged to be no obstacle under one alias is one under another exactly if it is a placeholder. */
  lemma OtherAlias(codec: Codec, fs: Fs, path: Abs, alias: string, other: string, identity: string)
    requires alias != other && Judge(codec, fs, path, other, identity).1 != Refuse
    ensures Judge(codec, fs, path, alias, identity).1 == Refuse <==>
            Judge(codec, fs, path, other, identity) == (PlaceholderThere, CloneIt)
  {
  }

  /** Nothing is in the way of a path where nothing is refused. */
  lemma NotInTheWay(codec: Codec, fs: Fs, path: Abs, alias: string, identity: string)
    requires Rooted(fs) && Judge(codec, fs, path, alias, identity).1 != Refuse
    ensures !InTheWay(fs, path) && !InTheWay(fs, Dir(path))
  {
    assert Dir(BarrierPath(path)) == path;
    if path in fs {
      assert IsFolder(fs, Dir(path));
      if BarrierPath(path) in fs { assert IsFolder(fs, path); }
    }
  }

  lemma EmptyHasNoFiles(fs: Fs, path: Abs)
    requires Empty(fs, path)
    ensures BarrierPath(path) !in fs && MetadataPath(path) !in fs
  {
    SentinelsArePlain();
    NameAt(fs, path, GIT_BARRIER);
    NameAt(fs, path, METADATA_FILE);
  }
}
