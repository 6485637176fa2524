/** Writing placeholders for the projects of a plan, all of them checked first. */
module Materializing {
  import opened Paths
  import opened Projects
  import opened Disks
  import opened Placeholders
  import opened Cloning
  import opened Planner
  import opened Execution

  // ----- one placeholder -----

  /** The directory of a freshly written placeholder, and the rest as it was. */
  function WrittenAt(codec: Codec, before: Fs, path: Abs, alias: string, identity: string, q: Abs): Option<Node> {
    if q == MetadataPath(path) then Some(File(codec.encode(MetadataFor(alias, identity, path))))
    else if q == NotePath(path) then Some(File(codec.note(alias)))
    else if q == BarrierPath(path) then Some(File(codec.barrier(alias)))
    else if q <= path && At(before, q).None? then Some(Folder)
    else At(before, q)
  }

  ghost predicate IsWritten(fs: Fs, codec: Codec, before: Fs, path: Abs, alias: string, identity: string) {
    forall q: Abs {:trigger At(fs, q)} :: At(fs, q) == WrittenAt(codec, before, path, alias, identity, q)
  }

  /** Where a placeholder may be written: nothing is there, or an empty folder. */
  predicate Writable(fs: Fs, path: Abs) { Stat(fs, path) == NotExist || (IsFolder(fs, path) && Empty(fs, path)) }

  lemma WrittenIsFolder(fs: Fs, codec: Codec, before: Fs, path: Abs, alias: string, identity: string)
    requires Rooted(before) && Writable(before, path) && IsWritten(fs, codec, before, path, alias, identity)
    ensures IsFolder(fs, path)
  {
  }

  lemma FileWritten(fs: Fs, codec: Codec, before: Fs, path: Abs, alias: string, identity: string, q: Abs)
    requires IsWritten(fs, codec, before, path, alias, identity)
    ensures At(fs, q) == WrittenAt(codec, before, path, alias, identity, q)
  {
  }

  lemma WrittenContents(fs: Fs, codec: Codec, before: Fs, path: Abs, alias: string, identity: string)
    requires IsWritten(fs, codec, before, path, alias, identity)
    ensures HasContents(codec, fs, path, alias, identity)
  {
    SentinelPathsDiffer(path);
    FileWritten(fs, codec, before, path, alias, identity, MetadataPath(path));
    FileWritten(fs, codec, before, path, alias, identity, NotePath(path));
    FileWritten(fs, codec, before, path, alias, identity, BarrierPath(path));
  }

  lemma SentinelPathsDiffer(path: Abs)
    ensures MetadataPath(path) != NotePath(path) && MetadataPath(path) != BarrierPath(path)
    ensures NotePath(path) != BarrierPath(path)
    ensures path != MetadataPath(path) && path != NotePath(path) && path != BarrierPath(path)
  {
    SentinelsArePlain();
    assert MetadataPath(path)[|path|] == METADATA_FILE && NotePath(path)[|path|] == NOTE_FILE;
    assert BarrierPath(path)[|path|] == GIT_BARRIER;
  }

  lemma NothingInside(before: Fs, path: Abs, name: string)
    requires Rooted(before) && Writable(before, path) && Plain(name)
    ensures path + [name] !in before
  {
    if path !in before {
      NothingBelow(before, path, path + [name]);
    } else {
      NameAt(before, path, name);
    }
  }

  lemma WrittenNames(fs: Fs, codec: Codec, before: Fs, path: Abs, alias: string, identity: string)
    requires Rooted(before) && Writable(before, path) && IsWritten(fs, codec, before, path, alias, identity)
    ensures Disks.Names(fs, path) == SentinelFiles()
  {
    SentinelsArePlain();
    forall name | Plain(name) ensures path + [name] in fs <==> name in SentinelFiles() {
      NothingInside(before, path, name);
      var q := path + [name];
      assert q[|path|] == name;
      assert At(fs, q) == WrittenAt(codec, before, path, alias, identity, q);
    }
    forall name | name in Disks.Names(fs, path) ensures name in SentinelFiles() { NameIsPlain(fs, path, name); }
    forall name | name in SentinelFiles() ensures name in Disks.Names(fs, path) { NameAt(fs, path, name); }
  }

  /** A freshly written placeholder is owned. */
  lemma WrittenIsUntouched(fs: Fs, codec: Codec, before: Fs, path: Abs, alias: string, identity: string)
    requires Rooted(before) && Writable(before, path) && IsWritten(fs, codec, before, path, alias, identity)
    ensures Untouched(codec, fs, path, alias, identity, {})
  {
    WrittenIsFolder(fs, codec, before, path, alias, identity);
    WrittenContents(fs, codec, before, path, alias, identity);
    WrittenNames(fs, codec, before, path, alias, identity);
  }

  lemma FilesAt(codec: Codec, before: Fs, path: Abs, alias: string, identity: string, fs: Fs, q: Abs)
    requires fs ==
      WithFolders(before, path)[MetadataPath(path) := File(codec.encode(MetadataFor(alias, identity, path)))]
        [NotePath(path) := File(codec.note(alias))][BarrierPath(path) := File(codec.barrier(alias))]
    ensures At(fs, q) == WrittenAt(codec, before, path, alias, identity, q)
  {
    SentinelPathsDiffer(path);
    WithFoldersAt(before, path, q);
  }

  /** The three files written into an existing folder. */
  method WriteFiles(disk: Disk, codec: Codec, path: Abs, alias: string, identity: string)
    requires disk.Valid() && IsFolder(disk.fs, path)
    requires !IsFolder(disk.fs, MetadataPath(path)) && !IsFolder(disk.fs, NotePath(path))
    requires !IsFolder(disk.fs, BarrierPath(path))
    modifies disk
    ensures disk.Valid()
    ensures disk.fs == old(disk.fs)[MetadataPath(path) := File(codec.encode(MetadataFor(alias, identity, path)))]
        [NotePath(path) := File(codec.note(alias))][BarrierPath(path) := File(codec.barrier(alias))]
  {
    SentinelPathsDiffer(path);
    assert Dir(MetadataPath(path)) == path && Dir(NotePath(path)) == path && Dir(BarrierPath(path)) == path;
    var metadata := disk.WriteFile(MetadataPath(path), codec.encode(MetadataFor(alias, identity, path)));
    var note := disk.WriteFile(NotePath(path), codec.note(alias));
    var barrier := disk.WriteFile(BarrierPath(path), codec.barrier(alias));
  }

  lemma NoSentinelsThere(fs: Fs, path: Abs)
    requires Rooted(fs) && Writable(fs, path)
    ensures MetadataPath(path) !in fs && NotePath(path) !in fs && BarrierPath(path) !in fs
  {
    SentinelsArePlain();
    NothingInside(fs, path, METADATA_FILE);
    NothingInside(fs, path, NOTE_FILE);
    NothingInside(fs, path, GIT_BARRIER);
  }

  method WriteNew(disk: Disk, codec: Codec, path: Abs, alias: string, identity: string)
    requires disk.Valid() && Writable(disk.fs, path)
    modifies disk
    ensures disk.Valid() && IsWritten(disk.fs, codec, old(disk.fs), path, alias, identity)
  {
    ghost var before := disk.fs;
    NoSentinelsThere(before, path);
    SentinelPathsDiffer(path);
    var made := disk.MkdirAll(path);
    WithFoldersAt(before, path, path);
    WithFoldersAt(before, path, MetadataPath(path));
    WithFoldersAt(before, path, NotePath(path));
    WithFoldersAt(before, path, BarrierPath(path));
    assert Stat(before, path) == NotExist ==> path !in before;
    WriteFiles(disk, codec, path, alias, identity);
    forall q: Abs ensures At(disk.fs, q) == WrittenAt(codec, before, path, alias, identity, q) {
      FilesAt(codec, before, path, alias, identity, disk.fs, q);
    }
  }

  predicate MayWrite(codec: Codec, fs: Fs, path: Abs, alias: string, identity: string) {
    Writable(fs, path) || Untouched(codec, fs, path, alias, identity, {})
  }

  /** `Write`: an untouched placeholder of the project is left as it is; anything else that is there is an error. */
  method Write(disk: Disk, codec: Codec, path: Abs, alias: string, identity: string) returns (ok: bool)
    requires disk.Valid() && Placeholders.Lawful(codec)
    modifies disk
    ensures disk.Valid()
    ensures ok == (alias != "" && identity != "" && MayWrite(codec, old(disk.fs), path, alias, identity))
    ensures !ok || Untouched(codec, old(disk.fs), path, alias, identity, {}) ==> disk.fs == old(disk.fs)
    ensures ok && !Untouched(codec, old(disk.fs), path, alias, identity, {}) ==>
        IsWritten(disk.fs, codec, old(disk.fs), path, alias, identity)
  {
    if alias == "" || identity == "" { return false; }
    SightOfWritable(codec, disk.fs, path, alias, identity);
    match Sight(codec, disk.fs, path) {
      case Unreadable => return false;
      case Sighted(m) =>
        if m.project != alias || m.identity != identity { return false; }
        ok := OwnedByAllowing(codec, disk, path, alias, identity, None);
        return;
      case NoPlaceholder =>
    }
    if !Writable(disk.fs, path) { return false; }
    WriteNew(disk, codec, path, alias, identity);
    return true;
  }

  /** Where a placeholder may be written there is none, and an untouched one shows as what it is. */
  lemma SightOfWritable(codec: Codec, fs: Fs, path: Abs, alias: string, identity: string)
    requires Rooted(fs) && Placeholders.Lawful(codec) && alias != "" && identity != ""
    ensures Writable(fs, path) ==>
        Sight(codec, fs, path) == NoPlaceholder && !Untouched(codec, fs, path, alias, identity, {})
    ensures Untouched(codec, fs, path, alias, identity, {}) ==>
        Sight(codec, fs, path) == Sighted(MetadataFor(alias, identity, path))
  {
    UntouchedIsSighted(codec, fs, path, alias, identity, {});
    if Writable(fs, path) { NoSentinelsThere(fs, path); }
  }

  // ----- the placeholders of a plan -----

  /** `placeholderProjectForAction` */
  predicate IsCandidate(a: Action) { a.kind == CloneIt && (a.state == NothingThere || a.state == PlaceholderThere) }

  predicate TakesPath(a: Action) { IsCandidate(a) || (a.kind == NoAction && a.state == Present) }

  predicate NoOverlap(a: Action, b: Action) { TakesPath(a) && TakesPath(b) ==> !Overlaps(a.path, b.path) }

  ghost predicate PathsPass(actions: seq<Action>, fs: Fs, root: Option<Abs>) {
    && NoneOverlap(actions)
    && (forall a <- actions :: IsCandidate(a) ==> WithinRoot(fs, root, a.path))
  }

  ghost predicate ApartUpTo(actions: seq<Action>, n: nat, paths: set<Abs>) {
    && n <= |actions|
    && (forall i, j {:trigger NoOverlap(actions[i], actions[j])} :: 0 <= i < j < n ==>
        NoOverlap(actions[i], actions[j]))
    && paths == set i | 0 <= i < n && TakesPath(actions[i]) :: actions[i].path
  }

  lemma NextOverlaps(actions: seq<Action>, n: nat, paths: set<Abs>)
    requires n < |actions| && ApartUpTo(actions, n, paths) && TakesPath(actions[n])
    ensures if exists other <- paths :: Overlaps(actions[n].path, other) then
              exists i :: 0 <= i < n && !NoOverlap(actions[i], actions[n])
            else ApartUpTo(actions, n + 1, paths + {actions[n].path})
  {
    if exists other <- paths :: Overlaps(actions[n].path, other) {
      var other :| other in paths && Overlaps(actions[n].path, other);
      var i :| 0 <= i < n && TakesPath(actions[i]) && actions[i].path == other;
      OverlapsIsComparable(actions[n].path, other);
      OverlapsIsComparable(other, actions[n].path);
      assert !NoOverlap(actions[i], actions[n]);
    } else {
      forall i | 0 <= i < n ensures NoOverlap(actions[i], actions[n]) {
        if TakesPath(actions[i]) {
          assert actions[i].path in paths;
          OverlapsIsComparable(actions[n].path, actions[i].path);
          OverlapsIsComparable(actions[i].path, actions[n].path);
        }
      }
    }
  }

  ghost predicate NoneOverlap(actions: seq<Action>) {
    forall i, j {:trigger NoOverlap(actions[i], actions[j])} :: 0 <= i < j < |actions| ==>
        NoOverlap(actions[i], actions[j])
  }

  /** The loop over the actions that collects the candidates. */
  method CollectCandidates(actions: seq<Action>) returns (candidates: Option<seq<Action>>)
    ensures candidates == if NoneOverlap(actions) then Some(Candidates(actions)) else None
  {
    var planned: map<Abs, string> := map[];
    var found := [];
    for i := 0 to |actions|
      invariant ApartUpTo(actions, i, planned.Keys) && found == Candidates(actions[..i])
    {
      assert actions[..i + 1][..i] == actions[..i];
      var a := actions[i];
      if TakesPath(a) {
        var added := AddPlannedPath(planned, a.path, a.alias);
        NextOverlaps(actions, i, planned.Keys);
        if added.None? { return None; }
        planned := added.value;
        if IsCandidate(a) { found := found + [a]; }
      }
    }
    assert actions[..|actions|] == actions;
    return Some(found);
  }

  /** The paths pass exactly if none of those taken contains another, and every candidate's is in the workspace, with
      nothing but folders above it. */
  lemma PassingIsInside(actions: seq<Action>, fs: Fs, root: Option<Abs>)
    requires Rooted(fs)
    ensures PathsPass(actions, fs, root) <==>
        && (forall i, j {:trigger Comparable(actions[i].path, actions[j].path)} :: 0 <= i < j < |actions| ==>
              TakesPath(actions[i]) && TakesPath(actions[j]) ==> !Comparable(actions[i].path, actions[j].path))
        && (root.Some? ==> forall a <- actions :: IsCandidate(a) ==> root.value <= a.path && FoldersAbove(fs, a.path))
    ensures forall a <- Candidates(actions) :: a in actions && IsCandidate(a)
  {
    CandidatesAre(actions);
    forall i, j | 0 <= i < j < |actions|
      ensures NoOverlap(actions[i], actions[j]) <==>
          (TakesPath(actions[i]) && TakesPath(actions[j]) ==> !Comparable(actions[i].path, actions[j].path))
    {
      OverlapsIsComparable(actions[i].path, actions[j].path);
    }
    if root.Some? {
      forall a | a in actions
        ensures WithinRoot(fs, root, a.path) <==> root.value <= a.path && FoldersAbove(fs, a.path)
      {
        WithinRootIsInside(fs, root.value, a.path);
      }
    }
  }

  /** `preflightPlaceholderMaterialization` */
  method PreflightPlaceholders(actions: seq<Action>, fs: Fs, root: Option<Abs>)
    returns (candidates: Option<seq<Action>>)
    requires Rooted(fs)
    ensures candidates == if PathsPass(actions, fs, root) then Some(Candidates(actions)) else None
    ensures candidates.Some? && root.Some? ==> forall a <- candidates.value :: root.value <= a.path
  {
    PassingIsInside(actions, fs, root);
    candidates := CollectCandidates(actions);
    if candidates.None? { return; }
    CandidatesAre(actions);
    var found := candidates.value;
    for i := 0 to |found|
      invariant forall j :: 0 <= j < i ==> WithinRoot(fs, root, found[j].path)
    {
      if !WithinRoot(fs, root, found[i].path) {
        assert found[i] in found;
        return None;
      }
    }
  }

  function Candidates(actions: seq<Action>): (r: seq<Action>) {
    if actions == [] then [] else
      var n := |actions| - 1;
      Candidates(actions[..n]) + (if IsCandidate(actions[n]) then [actions[n]] else [])
  }

  lemma {:induction false} CandidatesAre(actions: seq<Action>)
    ensures forall a :: a in Candidates(actions) <==> a in actions && IsCandidate(a)
  {
    if actions != [] {
      var n := |actions| - 1;
      CandidatesAre(actions[..n]);
      assert actions == actions[..n] + [actions[n]];
    }
  }

  // ----- all of them -----

  /** Writing one placeholder does not spoil another that is apart from it. */
  lemma EntryKept(fs: Fs, codec: Codec, before: Fs, path: Abs, alias: string, identity: string, other: Abs, q: Abs)
    requires IsWritten(fs, codec, before, path, alias, identity) && !Overlaps(path, other) && other <= q
    ensures At(fs, q) == At(before, q)
  {
    OverlapsIsComparable(path, other);
    SiblingsApart(path, other, q);
    assert q != MetadataPath(path) && q != NotePath(path) && q != BarrierPath(path) by {
      assert path <= MetadataPath(path) && path <= NotePath(path) && path <= BarrierPath(path);
    }
    assert At(fs, q) == WrittenAt(codec, before, path, alias, identity, q);
  }

  lemma NamesKept(fs: Fs, codec: Codec, before: Fs, path: Abs, alias: string, identity: string, other: Abs)
    requires IsWritten(fs, codec, before, path, alias, identity) && !Overlaps(path, other)
    ensures Disks.Names(fs, other) == Disks.Names(before, other)
  {
    forall name | Plain(name) ensures other + [name] in fs <==> other + [name] in before {
      EntryKept(fs, codec, before, path, alias, identity, other, other + [name]);
    }
    forall name | name in Disks.Names(fs, other) ensures name in Disks.Names(before, other) {
      NameIsPlain(fs, other, name);
      NameAt(before, other, name);
    }
    forall name | name in Disks.Names(before, other) ensures name in Disks.Names(fs, other) {
      NameIsPlain(before, other, name);
      NameAt(fs, other, name);
    }
  }

  lemma UntouchedKept(fs: Fs, codec: Codec, before: Fs, path: Abs, alias: string, identity: string, other: Abs,
                      otherAlias: string, otherIdentity: string)
    requires IsWritten(fs, codec, before, path, alias, identity) && !Overlaps(path, other)
    requires Untouched(codec, before, other, otherAlias, otherIdentity, {})
    ensures Untouched(codec, fs, other, otherAlias, otherIdentity, {})
  {
    NamesKept(fs, codec, before, path, alias, identity, other);
    EntryKept(fs, codec, before, path, alias, identity, other, other);
    EntryKept(fs, codec, before, path, alias, identity, other, MetadataPath(other));
    EntryKept(fs, codec, before, path, alias, identity, other, NotePath(other));
    EntryKept(fs, codec, before, path, alias, identity, other, BarrierPath(other));
  }

  predicate Owned(codec: Codec, fs: Fs, a: Action) {
    Untouched(codec, fs, a.path, a.alias, a.row.remote, {}) && a.alias != "" && a.row.remote != ""
  }

  predicate DirsApart(a: Action, b: Action) { !Overlaps(a.path, b.path) }

  ghost predicate CandidatesApart(candidates: seq<Action>) {
    forall i, j {:trigger DirsApart(candidates[i], candidates[j])} :: 0 <= i < j < |candidates| ==>
      DirsApart(candidates[i], candidates[j])
  }

  lemma {:induction false} CandidatesAreApart(actions: seq<Action>)
    requires NoneOverlap(actions)
    ensures CandidatesApart(Candidates(actions))
  {
    if actions != [] {
      var n := |actions| - 1;
      FewerOverlap(actions, n);
      CandidatesAreApart(actions[..n]);
      CandidatesAre(actions[..n]);
      var earlier, all := Candidates(actions[..n]), Candidates(actions);
      forall i, j | 0 <= i < j < |all| ensures DirsApart(all[i], all[j]) {
        if j < |earlier| {
          assert DirsApart(earlier[i], earlier[j]);
        } else {
          assert earlier[i] in actions[..n];
          var k :| 0 <= k < n && actions[k] == earlier[i];
          assert NoOverlap(actions[k], actions[n]);
        }
      }
    }
  }

  lemma FewerOverlap(actions: seq<Action>, n: nat)
    requires NoneOverlap(actions) && n <= |actions|
    ensures NoneOverlap(actions[..n])
  {
  }

  /** After a write, the placeholders written so far are all owned. */
  lemma OneMoreOwned(fs: Fs, codec: Codec, before: Fs, candidates: seq<Action>, n: nat, i: nat)
    requires Rooted(before) && CandidatesApart(candidates) && i <= n < |candidates|
    requires candidates[n].alias != "" && candidates[n].row.remote != ""
    requires i < n ==> Owned(codec, before, candidates[i])
    requires if Owned(codec, before, candidates[n]) then fs == before
             else Writable(before, candidates[n].path)
                  && IsWritten(fs, codec, before, candidates[n].path, candidates[n].alias, candidates[n].row.remote)
    ensures Owned(codec, fs, candidates[i])
  {
    var a := candidates[n];
    if !Owned(codec, before, a) {
      if i == n {
        WrittenIsUntouched(fs, codec, before, a.path, a.alias, a.row.remote);
      } else {
        assert DirsApart(candidates[i], candidates[n]);
        OverlapsIsComparable(candidates[i].path, a.path);
        OverlapsIsComparable(a.path, candidates[i].path);
        UntouchedKept(fs, codec, before, a.path, a.alias, a.row.remote, candidates[i].path, candidates[i].alias,
                      candidates[i].row.remote);
      }
    }
  }

  predicate AllOwned(codec: Codec, fs: Fs, actions: seq<Action>) {
    forall a <- actions :: IsCandidate(a) ==> Owned(codec, fs, a)
  }

  ghost predicate InCandidate(candidates: seq<Action>, q: Abs) { exists a <- candidates :: a.path <= q }

  /** Outside the candidates' directories there are only new folders. */
  ghost predicate OnlyInside(fs: Fs, before: Fs, candidates: seq<Action>) {
    forall q: Abs {:trigger At(fs, q)} :: !InCandidate(candidates, q) ==>
      At(fs, q) == At(before, q) || (At(before, q).None? && At(fs, q) == Some(Folder))
  }

  lemma WriteStaysInside(fs: Fs, codec: Codec, middle: Fs, before: Fs, candidates: seq<Action>, a: Action)
    requires OnlyInside(middle, before, candidates) && a in candidates
    requires fs == middle || IsWritten(fs, codec, middle, a.path, a.alias, a.row.remote)
    ensures OnlyInside(fs, before, candidates)
  {
    forall q: Abs | !InCandidate(candidates, q)
      ensures At(fs, q) == At(before, q) || (At(before, q).None? && At(fs, q) == Some(Folder))
    {
      assert At(middle, q) == At(before, q) || (At(before, q).None? && At(middle, q) == Some(Folder));
      if fs != middle {
        assert !(a.path <= q);
        assert a.path <= MetadataPath(a.path) && a.path <= NotePath(a.path) && a.path <= BarrierPath(a.path);
        assert At(fs, q) == WrittenAt(codec, middle, a.path, a.alias, a.row.remote, q);
      }
    }
  }

  /** One turn of the loop over the candidates. */
  method WriteOne(disk: Disk, codec: Codec, candidates: seq<Action>, n: nat, ghost before: Fs) returns (ok: bool)
    requires disk.Valid() && Placeholders.Lawful(codec) && n < |candidates| && CandidatesApart(candidates)
    requires OnlyInside(disk.fs, before, candidates)
    requires forall i :: 0 <= i < n ==> Owned(codec, disk.fs, candidates[i])
    modifies disk
    ensures disk.Valid() && OnlyInside(disk.fs, before, candidates)
    ensures !ok ==> disk.fs == old(disk.fs)
    ensures ok ==> forall i :: 0 <= i <= n ==> Owned(codec, disk.fs, candidates[i])
    ensures Owned(codec, old(disk.fs), candidates[n]) ==> ok && disk.fs == old(disk.fs)
  {
    var a := candidates[n];
    ghost var middle := disk.fs;
    ok := Write(disk, codec, a.path, a.alias, a.row.remote);
    WriteStaysInside(disk.fs, codec, middle, before, candidates, a);
    if ok {
      forall i | 0 <= i <= n ensures Owned(codec, disk.fs, candidates[i]) {
        OneMoreOwned(disk.fs, codec, middle, candidates, n, i);
      }
    }
  }

  /** A placeholder that is there is inside the workspace if its path is. */
  lemma OwnedIsWithinRoot(codec: Codec, fs: Fs, root: Option<Abs>, a: Action)
    requires Rooted(fs) && Owned(codec, fs, a) && (root.Some? ==> root.value <= a.path)
    ensures WithinRoot(fs, root, a.path)
  {
    if root.Some? && root.value != a.path { InFolder(fs, root.value, a.path); }
  }

  /** Once all placeholders are there, the paths still pass. */
  lemma PathsStillPass(codec: Codec, fs: Fs, before: Fs, root: Option<Abs>, actions: seq<Action>)
    requires Rooted(fs) && PathsPass(actions, before, root) && AllOwned(codec, fs, actions)
    ensures PathsPass(actions, fs, root)
  {
    forall a | a in actions && IsCandidate(a) ensures WithinRoot(fs, root, a.path) {
      OwnedIsWithinRoot(codec, fs, root, a);
    }
  }

  /** `materializePlaceholders`: nothing is written unless all paths pass; after a success every candidate has its
      placeholder, and doing it again changes nothing; after a failure the placeholders reported are there. */
  method Materialize(disk: Disk, codec: Codec, root: Option<Abs>, actions: seq<Action>)
    returns (ok: bool, written: seq<Action>)
    requires disk.Valid() && Placeholders.Lawful(codec)
    modifies disk
    ensures disk.Valid() && written <= Candidates(actions)
    ensures !PathsPass(actions, old(disk.fs), root) ==> !ok && disk.fs == old(disk.fs)
    ensures forall a <- written :: Owned(codec, disk.fs, a)
    ensures OnlyInside(disk.fs, old(disk.fs), Candidates(actions))
    ensures ok ==> PathsPass(actions, old(disk.fs), root) && written == Candidates(actions)
    ensures ok ==> PathsPass(actions, disk.fs, root) && AllOwned(codec, disk.fs, actions)
    ensures PathsPass(actions, old(disk.fs), root) && AllOwned(codec, old(disk.fs), actions) ==>
        ok && disk.fs == old(disk.fs)
  {
    written := [];
    var preflight := PreflightPlaceholders(actions, disk.fs, root);
    if preflight.None? { return false, written; }
    ghost var before := disk.fs;
    CandidatesAreApart(actions);
    CandidatesAre(actions);
    ok, written := WriteAll(disk, codec, preflight.value);
    if ok { AllWritten(codec, disk.fs, before, root, actions); }
  }

  /** The loop over the candidates, up to the first that cannot be written. */
  method WriteAll(disk: Disk, codec: Codec, candidates: seq<Action>) returns (ok: bool, written: seq<Action>)
    requires disk.Valid() && Placeholders.Lawful(codec) && CandidatesApart(candidates)
    modifies disk
    ensures disk.Valid() && written <= candidates && OnlyInside(disk.fs, old(disk.fs), candidates)
    ensures forall a <- written :: Owned(codec, disk.fs, a)
    ensures ok ==> written == candidates
    ensures (forall a <- candidates :: Owned(codec, old(disk.fs), a)) ==> ok && disk.fs == old(disk.fs)
  {
    written := [];
    ghost var before := disk.fs;
    var n := 0;
    while n < |candidates|
      invariant 0 <= n <= |candidates| && disk.Valid() && written == candidates[..n]
      invariant forall i :: 0 <= i < n ==> Owned(codec, disk.fs, candidates[i])
      invariant (forall a <- candidates :: Owned(codec, before, a)) ==> disk.fs == before
      invariant OnlyInside(disk.fs, before, candidates)
    {
      ok := WriteOne(disk, codec, candidates, n, before);
      if !ok { return; }
      written, n := written + [candidates[n]], n + 1;
    }
    assert candidates[..n] == candidates;
    ok := true;
  }

  lemma AllWritten(codec: Codec, fs: Fs, before: Fs, root: Option<Abs>, actions: seq<Action>)
    requires Rooted(fs) && PathsPass(actions, before, root)
    requires forall a <- Candidates(actions) :: Owned(codec, fs, a)
    ensures PathsPass(actions, fs, root) && AllOwned(codec, fs, actions)
  {
    CandidatesAre(actions);
    PathsStillPass(codec, fs, before, root, actions);
  }

  /** The next plan finds each project whose placeholder was written as a placeholder to be cloned. */
  lemma OwnedIsPlannedAsPlaceholder(codec: Codec, before: Fs, fs: Fs, root: Option<Abs>, p: Project)
    requires Placeholders.Lawful(codec) && Projects.Complete(p)
    requires Classify(codec, before, root, p).kind == CloneIt && Owned(codec, fs, Classify(codec, before, root, p))
    ensures Classify(codec, fs, root, p) == Classify(codec, before, root, p).(state := PlaceholderThere)
  {
    PlaceholderIsRecognised(codec, fs, HydrationPath(p), p.alias, p.remote);
  }
}
