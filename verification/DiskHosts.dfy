/** What the planners see of a disk without symbolic links. */
module DiskHosts {
  import opened Paths
  import opened Hosts
  import opened Projects
  import opened Manifest
  import opened PlanImport
  import opened Disks
  import opened Cloning

  // ----- a disk as a host -----

  function HostOf(fs: Fs): Host {
    Host((p: Abs) => if p in fs then Seen.Present else if Stat(fs, p).NotInFolder? then Seen.Unknown else Seen.Missing,
         (p: Abs) => match Stat(fs, p)
           case Found(Folder) => Directory(true, Empty(fs, p))
           case Found(File(_)) => NotDirectory
           case NotExist => NotThere
           case NotInFolder => StatError,
         (p: Abs) => if p in fs then Resolution.At(p) else if Stat(fs, p).NotInFolder? then Resolution.Broken
             else Absent)
  }

  lemma PrefixIsThere(fs: Fs, p: Abs, s: Abs)
    requires Rooted(fs) && p + s in fs
    ensures p in fs
  {
    if s != [] { InFolder(fs, p, p + s); } else { assert p + s == p; }
  }

  lemma HostIsLawful(fs: Fs)
    requires Rooted(fs)
    ensures Hosts.Lawful(HostOf(fs))
  {
    var host := HostOf(fs);
    forall p: Abs, s: Abs ensures Follows(host, p, s) {
      if p + s in fs { PrefixIsThere(fs, p, s); }
    }
    forall p: Abs | host.lstat(p) == Seen.Missing ensures host.stat(p) == NotThere {
      assert !Stat(fs, p).Found? && !Stat(fs, p).NotInFolder?;
    }
  }

  lemma ResolvesToItself(fs: Fs, p: Abs)
    ensures HostOf(fs).resolve(p).At? ==> HostOf(fs).resolve(p).path == p
  {
  }

  lemma LeadsToItself(host: Host, p: Abs)
    requires forall n :: 0 <= n <= |p| && host.resolve(p[..n]).At? ==> host.resolve(p[..n]).path == p[..n]
    ensures Canonical(host, p) == p
  {
    match Nearest(host, p, |p|) {
      case None =>
      case Some(n) => assert p[..n] + p[n..] == p;
    }
  }

  /** Without symbolic links, a path leads to itself. */
  lemma NoLinks(fs: Fs, p: Abs)
    ensures Canonical(HostOf(fs), p) == p
  {
    forall n | 0 <= n <= |p| && HostOf(fs).resolve(p[..n]).At? ensures HostOf(fs).resolve(p[..n]).path == p[..n] {
      ResolvesToItself(fs, p[..n]);
    }
    LeadsToItself(HostOf(fs), p);
  }

  /** With only folders above a path, nothing on the way to it is broken. */
  lemma NoneBroken(fs: Fs, p: Abs, k: nat)
    requires Rooted(fs) && k <= |p| && FoldersAbove(fs, p)
    ensures !HostOf(fs).resolve(p[..k]).Broken?
  {
    forall q: Abs | q < p[..k] ensures Disks.At(fs, q).None? || IsFolder(fs, q) {
      assert q < p && Disks.At(fs, q) == Disks.At(fs, q);
    }
    StatIsFoldersAbove(fs, p[..k]);
  }

  /** Without symbolic links a path resolves to itself, exactly if there are only folders above it. */
  lemma RealIsItself(fs: Fs, p: Abs)
    requires Rooted(fs)
    ensures Real(HostOf(fs), p) == if FoldersAbove(fs, p) then Some(p) else None
  {
    StatIsFoldersAbove(fs, p);
    NoLinks(fs, p);
    assert p[..|p|] == p && p[..0] == [];
    var host := HostOf(fs);
    var nearest := Nearest(host, p, |p|);
    assert nearest.Some? by { assert host.resolve(p[..0]).At?; }
    if FoldersAbove(fs, p) {
      forall k | nearest.value < k <= |p| ensures host.resolve(p[..k]).Absent? { NoneBroken(fs, p, k); }
    } else {
      assert host.resolve(p[..|p|]).Broken?;
    }
  }

  /** The check of a clone's destination is the one by `realPathForPossiblyMissing`: root and destination resolve, and
      the one is a prefix of the other. */
  lemma WithinRootIsReal(fs: Fs, root: Abs, path: Abs)
    requires Rooted(fs)
    ensures
      var realRoot, realPath := Real(HostOf(fs), root), Real(HostOf(fs), path);
      WithinRoot(fs, Some(root), path) <==> realRoot.Some? && realPath.Some? && realRoot.value <= realPath.value
  {
    RealIsItself(fs, root);
    RealIsItself(fs, path);
    WithinRootIsInside(fs, root, path);
    if root <= path && FoldersAbove(fs, path) {
      forall q: Abs | q < root ensures Disks.At(fs, q).None? || IsFolder(fs, q) {
        assert q < path && Disks.At(fs, q) == Disks.At(fs, q);
      }
    }
  }

  lemma {:induction false} NoParentConflict(fs: Fs, path: Abs)
    requires Rooted(fs) && Stat(fs, path) == NotExist
    ensures !ParentConflict(HostOf(fs), path)
    decreases |path|
  {
    if Dir(path) != [] && Stat(fs, Dir(path)) == NotExist { NoParentConflict(fs, Dir(path)); }
  }

  /** A place is free if nothing is there, with only folders above it, or if it is the workspace root, and empty. */
  predicate FreeFor(fs: Fs, root: Abs, place: Abs) {
    Stat(fs, place) == NotExist || (place == root && IsFolder(fs, place) && Empty(fs, place))
  }

  lemma FreeHasNoConflict(fs: Fs, root: Abs, place: Abs)
    requires Rooted(fs)
    ensures !Hosts.PathConflict(HostOf(fs), place, Some(root)) <==> FreeFor(fs, root, place)
  {
    NoLinks(fs, place);
    NoLinks(fs, root);
    if Stat(fs, place) == NotExist { NoParentConflict(fs, place); }
  }

  /** What is in the way of an entry, on a disk: if its project is not registered at the place already, the place of
      another project, or whatever is there but the project's own directory. */
  lemma BlockedOnDisk(fs: Fs, root: Abs, known: Known, e: Entry)
    requires Rooted(fs) && EntryOk(e) && KnownOk(known)
    ensures
      var place := root + Below(e);
      var isKnown := e.identity in known.byIdentity;
      PlanImport.Blocked(HostOf(fs), root, known, e) <==>
        && !(isKnown && known.byIdentity[e.identity].canonicalPath == Some(place))
        && ((place in known.byPath && known.byPath[place] != e.identity)
            || (!(isKnown && known.byIdentity[e.identity].localPath == Some(place)) && !FreeFor(fs, root, place)))
  {
    NoLinks(fs, root);
    NoLinks(fs, root + Below(e));
    FreeHasNoConflict(fs, root, root + Below(e));
    if e.identity in known.byIdentity {
      NoLinks(fs, known.byIdentity[e.identity].canonicalPath.value);
      NoLinks(fs, known.byIdentity[e.identity].localPath.value);
    }
  }
}
