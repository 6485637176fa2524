/** Bootstrapping a machine from a manifest: dry run, import, new plan, clones. */
module BootstrapRun {
  import opened Paths
  import opened Hosts
  import opened Projects
  import opened Manifest
  import opened ImportStages
  import opened ApplyImport
  import opened PlanImport
  import opened ConflictFree
  import opened Reconciliation
  import opened DryRunRefines
  import opened Replan
  import opened Disks
  import opened Placeholders
  import opened Cloning
  import opened Planner
  import opened Execution
  import opened Bootstrap
  import opened DiskHosts

  // ----- what a bootstrap comes to -----

  datatype ApplyError = InvalidManifest | ManifestBlocked | EntriesRefused | NoParents | ImportFailed
    | HydrationBlocked | HydrationFailed(why: BootstrapError)

  function AliasesOf(entries: seq<Entry>): (aliases: seq<string>)
    ensures |aliases| == |entries| && forall i :: 0 <= i < |entries| ==> aliases[i] == entries[i].alias
  {
    seq(|entries|, i requires 0 <= i < |entries| => entries[i].alias)
  }

  /** The entry's project has its row, at its place, and a checkout is there. */
  ghost predicate InPlace(fs: Fs, root: Abs, rows: Rows, e: Entry)
    requires EntryOk(e)
  {
    && (exists id <- rows :: PlacedAs(rows[id], root, e))
    && IsCheckout(fs, root + Below(e))
  }

  predicate PlacedAs(p: Project, root: Abs, e: Entry)
    requires EntryOk(e)
  {
    && p.remote == e.identity && p.alias == e.alias && p.source == CANONICAL
    && p.canonicalPath == Some(root + Below(e)) && (e.hint != "" ==> p.cloneURL == e.hint)
  }

  /** The entries' projects have their rows, at their places. */
  predicate AllPlaced(rows: Rows, root: Abs, entries: seq<Entry>)
    requires AllOk(entries)
  {
    forall e <- entries :: exists id <- rows :: PlacedAs(rows[id], root, e)
  }

  lemma SettledIsPlaced(fs: Fs, root: Abs, e: Entry, p: Project)
    requires EntryOk(e) && Settled(HostOf(fs), root, e, p)
    ensures PlacedAs(p, root, e)
  {
    NoLinks(fs, root);
    NoLinks(fs, root + Below(e));
    NoLinks(fs, p.canonicalPath.value);
  }

  // ----- the steps -----

  function ParentOf(root: Abs, e: Entry): Abs
    requires EntryOk(e)
  {
    if root + Below(e) == root then root else Dir(root + Below(e))
  }

  ghost predicate AboveEntry(root: Abs, entries: seq<Entry>, q: Abs)
    requires AllOk(entries)
  {
    exists e <- entries :: q <= ParentOf(root, e)
  }

  /** Nothing but new folders, which are parents of the entries' places. */
  ghost predicate ParentsMade(fs: Fs, before: Fs, root: Abs, entries: seq<Entry>)
    requires AllOk(entries)
  {
    forall q: Abs {:trigger Disks.At(fs, q)} ::
      || Disks.At(fs, q) == Disks.At(before, q)
      || (Disks.At(before, q).None? && Disks.At(fs, q) == Some(Folder) && AboveEntry(root, entries, q))
  }

  lemma StillNotInTheWay(fs: Fs, before: Fs, root: Abs, entries: seq<Entry>, q: Abs)
    requires AllOk(entries) && Rooted(fs) && Rooted(before) && ParentsMade(fs, before, root, entries)
    ensures InTheWay(fs, q) <==> InTheWay(before, q)
  {
    SameInTheWay(fs, before, q, q);
  }

  /** The parent of a place could be made, and is there. */
  predicate ParentIsMade(fs: Fs, start: Fs, root: Abs, e: Entry)
    requires EntryOk(e)
  {
    !InTheWay(start, ParentOf(root, e)) && IsFolder(fs, ParentOf(root, e))
  }

  /** `parentDirectories`: the folders that are to be there before anything is cloned. */
  method MakeParents(disk: Disk, root: Abs, entries: seq<Entry>) returns (ok: bool)
    requires disk.Valid() && AllOk(entries)
    modifies disk
    ensures disk.Valid() && ParentsMade(disk.fs, old(disk.fs), root, entries)
    ensures ok <==> forall e <- entries :: !InTheWay(old(disk.fs), ParentOf(root, e))
    ensures ok ==> forall e <- entries :: IsFolder(disk.fs, ParentOf(root, e))
  {
    for i := 0 to |entries|
      invariant disk.Valid() && ParentsMade(disk.fs, old(disk.fs), root, entries)
      invariant forall j :: 0 <= j < i ==> ParentIsMade(disk.fs, old(disk.fs), root, entries[j])
    {
      ok := MakeParent(disk, root, entries, i, old(disk.fs));
      if !ok { return; }
    }
    return true;
  }

  /** One turn of the loop. */
  method MakeParent(disk: Disk, root: Abs, entries: seq<Entry>, i: nat, ghost start: Fs) returns (ok: bool)
    requires disk.Valid() && AllOk(entries) && i < |entries|
    requires Rooted(start) && ParentsMade(disk.fs, start, root, entries)
    requires forall j :: 0 <= j < i ==> ParentIsMade(disk.fs, start, root, entries[j])
    modifies disk
    ensures disk.Valid() && ParentsMade(disk.fs, start, root, entries)
    ensures ok <==> !InTheWay(start, ParentOf(root, entries[i]))
    ensures ok ==> forall j :: 0 <= j <= i ==> ParentIsMade(disk.fs, start, root, entries[j])
  {
    var parent := ParentOf(root, entries[i]);
    ghost var before := disk.fs;
    StillNotInTheWay(before, start, root, entries, parent);
    ok := disk.MkdirAll(parent);
    if ok { ParentAdded(disk.fs, before, start, root, entries, i); }
  }

  lemma ParentAdded(fs: Fs, before: Fs, start: Fs, root: Abs, entries: seq<Entry>, i: nat)
    requires AllOk(entries) && i < |entries| && ParentsMade(before, start, root, entries)
    requires !InTheWay(before, ParentOf(root, entries[i])) && fs == WithFolders(before, ParentOf(root, entries[i]))
    requires !InTheWay(start, ParentOf(root, entries[i]))
    requires forall j :: 0 <= j < i ==> ParentIsMade(before, start, root, entries[j])
    ensures ParentsMade(fs, start, root, entries)
    ensures forall j :: 0 <= j <= i ==> ParentIsMade(fs, start, root, entries[j])
  {
    var parent := ParentOf(root, entries[i]);
    forall q: Abs
      ensures Disks.At(fs, q) == Disks.At(start, q)
           || (Disks.At(start, q).None? && Disks.At(fs, q) == Some(Folder) && AboveEntry(root, entries, q))
    {
      WithFoldersAt(before, parent, q);
      assert Disks.At(before, q) == Disks.At(before, q);
      if q <= parent { assert entries[i] in entries; }
    }
    forall j | 0 <= j <= i ensures ParentIsMade(fs, start, root, entries[j]) {
      assert j < i ==> ParentIsMade(before, start, root, entries[j]);
      WithFoldersAt(before, parent, ParentOf(root, entries[j]));
    }
  }

  // ----- the places of the entries -----

  /** No place of an entry is inside another's. */
  ghost predicate PlacesApart(root: Abs, entries: seq<Entry>)
    requires AllOk(entries)
  {
    forall e <- entries, d <- entries {:trigger Separate(root, e, d)} :: Separate(root, e, d)
  }

  predicate Separate(root: Abs, e: Entry, d: Entry)
    requires EntryOk(e) && EntryOk(d)
  {
    root + Below(e) <= root + Below(d) ==> e == d
  }

  /** The parents of the other places are not inside an entry's place. */
  lemma NotInPlace(root: Abs, entries: seq<Entry>, e: Entry, q: Abs)
    requires AllOk(entries) && PlacesApart(root, entries) && e in entries && AboveEntry(root, entries, q)
    ensures root + Below(e) <= q ==> q == root + Below(e) == root
  {
    if root + Below(e) <= q {
      var d :| d in entries && q <= ParentOf(root, d);
      assert Separate(root, e, d);
    }
  }

  /** Making the parents changes nothing about what is judged of an entry's place. */
  lemma PlaceIsJudgedTheSame(codec: Codec, fs: Fs, before: Fs, root: Abs, entries: seq<Entry>, e: Entry, alias: string)
    requires AllOk(entries) && Rooted(fs) && Rooted(before) && ParentsMade(fs, before, root, entries)
    requires PlacesApart(root, entries) && e in entries
    ensures Judge(codec, fs, root + Below(e), alias, e.identity)
         == Judge(codec, before, root + Below(e), alias, e.identity)
  {
    var path := root + Below(e);
    if Disks.At(fs, path) == Disks.At(before, path) {
      forall q: Abs | path <= q ensures Disks.At(fs, q) == Disks.At(before, q) {
        if AboveEntry(root, entries, q) { NotInPlace(root, entries, e, q); }
      }
      SameJudged(codec, fs, before, path, alias, e.identity);
    } else {
      NewIsEmpty(fs, before, root, entries, e);
    }
  }

  /** A place that was made as a parent is an empty folder now, and was missing before. */
  lemma NewIsEmpty(fs: Fs, before: Fs, root: Abs, entries: seq<Entry>, e: Entry)
    requires AllOk(entries) && Rooted(fs) && Rooted(before) && ParentsMade(fs, before, root, entries)
    requires PlacesApart(root, entries) && e in entries
    requires Disks.At(fs, root + Below(e)) != Disks.At(before, root + Below(e))
    ensures Stat(before, root + Below(e)) == NotExist
    ensures IsFolder(fs, root + Below(e)) && Empty(fs, root + Below(e))
    ensures BarrierPath(root + Below(e)) !in fs && MetadataPath(root + Below(e)) !in fs
  {
    var path := root + Below(e);
    StillNotInTheWay(fs, before, root, entries, path);
    forall q: Abs | path < q ensures q !in fs {
      NothingBelow(before, path, q);
      if AboveEntry(root, entries, q) { NotInPlace(root, entries, e, q); }
      assert Disks.At(fs, q) == Disks.At(before, q);
    }
  }

  predicate NotNested(root: Abs, e: Entry, d: Entry)
    requires EntryOk(e) && EntryOk(d)
  {
    !(root + Below(e) <= root + Below(d)) && !(root + Below(d) <= root + Below(e))
  }

  lemma TwoApart(fs: Fs, root: Abs, entries: seq<Entry>, projects: seq<Project>, i: nat, j: nat)
    requires AllOk(entries) && AllComplete(projects) && i < j < |entries|
    requires AllClear(HostOf(fs), root, Knowledge(HostOf(fs), entries, projects), entries)
    ensures NotNested(root, entries[i], entries[j])
  {
    EntriesApart(HostOf(fs), root, Knowledge(HostOf(fs), entries, projects), entries, i, j);
    DesiredIsPlace(fs, root, entries[i]);
    DesiredIsPlace(fs, root, entries[j]);
    OverlapsIsComparable(root + Below(entries[i]), root + Below(entries[j]));
  }

  lemma NotNestedAreApart(root: Abs, entries: seq<Entry>)
    requires AllOk(entries)
    requires forall i, j {:trigger NotNested(root, entries[i], entries[j])} :: 0 <= i < j < |entries| ==>
        NotNested(root, entries[i], entries[j])
    ensures PlacesApart(root, entries)
  {
    forall e, d | e in entries && d in entries ensures Separate(root, e, d) {
      var i :| 0 <= i < |entries| && entries[i] == e;
      var j :| 0 <= j < |entries| && entries[j] == d;
      assert i < j ==> NotNested(root, entries[i], entries[j]);
      assert j < i ==> NotNested(root, entries[j], entries[i]);
    }
  }

  lemma ClearAreApart(fs: Fs, root: Abs, entries: seq<Entry>, projects: seq<Project>)
    requires AllOk(entries) && AllComplete(projects)
    requires AllClear(HostOf(fs), root, Knowledge(HostOf(fs), entries, projects), entries)
    ensures PlacesApart(root, entries)
  {
    forall i, j | 0 <= i < j < |entries| ensures NotNested(root, entries[i], entries[j]) {
      TwoApart(fs, root, entries, projects, i, j);
    }
    NotNestedAreApart(root, entries);
  }

  lemma DesiredIsPlace(fs: Fs, root: Abs, e: Entry)
    requires EntryOk(e)
    ensures DesiredPath(HostOf(fs), root, e) == root + Below(e)
  {
    NoLinks(fs, root);
    NoLinks(fs, root + Below(e));
  }

  lemma PresentIsCheckout(codec: Codec, fs: Fs, path: Abs, alias: string, identity: string)
    requires Judge(codec, fs, path, alias, identity) == (Planner.Present, NoAction)
    ensures IsCheckout(fs, path)
  {
  }

  /** Carrying out the plan for the imported entries puts every settled project in place. */
  lemma CarriedOutIsInPlace(codec: Codec, before: Fs, fs: Fs, root: Abs, rows: Rows, after: Rows, actions: seq<Action>,
                            gits: seq<GitOutcome>, matches: Action -> bool, aliases: seq<string>, e: Entry, id: nat)
    requires Sound(rows) && EntryOk(e) && |gits| == |actions| && e.alias in aliases
    requires CarriedOut(codec, before, fs, Some(root), rows, after, ByAlias(aliases), actions, gits, matches)
    requires id in rows && PlacedAs(rows[id], root, e)
    ensures InPlace(fs, root, after, e)
  {
    PlacedAre(rows, actions, codec, before, Some(root), id);
    assert PlacedAs(after[id], root, e);
    var a := Classify(codec, before, Some(root), rows[id]);
    assert Selects(ByAlias(aliases), rows[id]);
    var p :| 0 <= p < |actions| && actions[p] == a;
    AllArePresent(fs, before, codec, Some(root), rows, actions, gits, matches, p);
    PresentIsCheckout(codec, fs, a.path, a.alias, a.row.remote);
  }

  lemma AllInPlace(codec: Codec, before: Fs, fs: Fs, root: Abs, rows: Rows, after: Rows, actions: seq<Action>,
                   gits: seq<GitOutcome>, matches: Action -> bool, entries: seq<Entry>)
    requires Sound(rows) && AllOk(entries) && |gits| == |actions|
    requires CarriedOut(codec, before, fs, Some(root), rows, after, ByAlias(AliasesOf(entries)), actions, gits, matches)
    requires AllPlaced(rows, root, entries)
    ensures forall e <- entries :: InPlace(fs, root, after, e)
  {
    forall e | e in entries ensures InPlace(fs, root, after, e) {
      var i :| 0 <= i < |entries| && entries[i] == e;
      assert AliasesOf(entries)[i] == e.alias;
      var id :| id in rows && PlacedAs(rows[id], root, e);
      CarriedOutIsInPlace(codec, before, fs, root, rows, after, actions, gits, matches, AliasesOf(entries), e, id);
    }
  }

  /** A plan for the imported entries is the registry plan for their aliases. */
  ghost predicate PlansEntries(actions: seq<Action>, codec: Codec, fs: Fs, root: Abs, rows: Rows, entries: seq<Entry>)
    requires Sound(rows)
  {
    IsRegistryPlan(actions, codec, fs, Some(root), rows, ByAlias(AliasesOf(entries)))
  }

  /** What is judged of the place of an entry's project keeps it from being cloned. */
  predicate Hindered(codec: Codec, fs: Fs, root: Abs, e: Entry)
    requires EntryOk(e)
  {
    Judge(codec, fs, root + Below(e), e.alias, e.identity).1 == Refuse
  }

  lemma PlacedIsJudged(codec: Codec, fs: Fs, root: Abs, p: Project, e: Entry)
    requires Projects.Complete(p) && EntryOk(e) && PlacedAs(p, root, e)
    ensures Classify(codec, fs, Some(root), p).kind == Refuse <==> Hindered(codec, fs, root, e)
  {
    WithinIsProperPrefix(root + Below(e), root);
  }

  lemma RowForEntry(root: Abs, rows: Rows, entries: seq<Entry>, alias: string) returns (i: nat, id: nat)
    requires AllOk(entries) && alias in AliasesOf(entries)
    requires AllPlaced(rows, root, entries)
    ensures i < |entries| && entries[i].alias == alias && id in rows && PlacedAs(rows[id], root, entries[i])
  {
    i :| 0 <= i < |entries| && AliasesOf(entries)[i] == alias;
    var e := entries[i];
    assert e in entries;
    id :| id in rows && PlacedAs(rows[id], root, e);
  }

  lemma RefusalIsHindered(codec: Codec, fs: Fs, root: Abs, rows: Rows, entries: seq<Entry>, actions: seq<Action>,
                          a: Action) returns (e: Entry)
    requires Sound(rows) && AllOk(entries) && a in actions && a.kind == Refuse
    requires PlansEntries(actions, codec, fs, root, rows, entries)
    requires AllPlaced(rows, root, entries)
    ensures e in entries && Hindered(codec, fs, root, e)
  {
    assert a.alias in AliasesOf(entries);
    var i, id := RowForEntry(root, rows, entries, a.alias);
    e := entries[i];
    assert IsActionFor(a, codec, fs, Some(root), rows);
    SameAliasSameRow(rows, id, a.projectID);
    PlacedIsJudged(codec, fs, root, rows[id], e);
  }

  lemma HinderedIsRefused(codec: Codec, fs: Fs, root: Abs, rows: Rows, entries: seq<Entry>, actions: seq<Action>,
                          e: Entry)
    requires Sound(rows) && AllOk(entries) && e in entries && Hindered(codec, fs, root, e)
    requires PlansEntries(actions, codec, fs, root, rows, entries)
    requires exists id <- rows :: PlacedAs(rows[id], root, e)
    ensures Refusals(actions)
  {
    var i :| 0 <= i < |entries| && entries[i] == e;
    assert AliasesOf(entries)[i] == e.alias;
    var id :| id in rows && PlacedAs(rows[id], root, e);
    assert Selects(ByAlias(AliasesOf(entries)), rows[id]);
    PlacedIsJudged(codec, fs, root, rows[id], e);
    assert Classify(codec, fs, Some(root), rows[id]) in actions;
  }

  /** The plan for the imported entries is blocked exactly if one of them is hindered. */
  lemma BlockedIsHindered(codec: Codec, fs: Fs, root: Abs, rows: Rows, entries: seq<Entry>, actions: seq<Action>)
    requires Sound(rows) && AllOk(entries)
    requires PlansEntries(actions, codec, fs, root, rows, entries)
    requires AllPlaced(rows, root, entries)
    ensures Refusals(actions) <==> exists e <- entries :: Hindered(codec, fs, root, e)
  {
    if a :| a in actions && a.kind == Refuse {
      var e := RefusalIsHindered(codec, fs, root, rows, entries, actions, a);
    }
    if e :| e in entries && Hindered(codec, fs, root, e) {
      HinderedIsRefused(codec, fs, root, rows, entries, actions, e);
    }
  }

  /** All clones are made and recorded, nothing else has changed but for parents of the clones, every entry is in place,
      and planning again finds every project present. */
  ghost predicate Finished(codec: Codec, fs: Fs, before: Fs, root: Abs, rows: Rows, after: Rows, entries: seq<Entry>,
                           actions: seq<Action>, gits: seq<GitOutcome>)
    requires AllOk(entries) && Sound(rows) && Sound(after) && |gits| == |actions|
  {
    && (forall e <- entries :: InPlace(fs, root, after, e)) && Progress(fs, before, actions, gits, |actions|)
    && AllHydrated(codec, before, Some(root), ByAlias(AliasesOf(entries)), rows, after)
    && Converged(codec, fs, Some(root), after, ByAlias(AliasesOf(entries)))
  }

  /** Planning, cloning and recording for the aliases of the entries.  It is blocked exactly if an entry is hindered. */
  method Hydrate(codec: Codec, disk: Disk, root: Abs, store: ProjectStore, entries: seq<Entry>,
                 git: Action -> GitOutcome, matches: Action -> bool)
    returns (error: Option<ApplyError>, cloned: seq<Action>, ghost actions: seq<Action>, ghost n: nat)
    requires store.Valid() && disk.Valid() && Placeholders.Lawful(codec) && AllOk(entries)
    requires forall a: Action :: GitIsSane(git(a))
    requires forall id <- store.rows :: HydrationPath(store.rows[id]) != []
    requires AllPlaced(store.rows, root, entries)
    modifies store, disk
    ensures store.Valid() && disk.Valid()
    ensures PlansEntries(actions, codec, old(disk.fs), root, old(store.rows), entries)
    ensures error.Some? ==> error.value.HydrationBlocked? || error.value.HydrationFailed?
    ensures error == Some(HydrationBlocked) <==> exists e <- entries :: Hindered(codec, old(disk.fs), root, e)
    ensures error == Some(HydrationBlocked) ==>
        disk.fs == old(disk.fs) && store.rows == old(store.rows) && cloned == []
    ensures error.Some? && error.value.HydrationFailed? ==>
        Ended(error.value.why, codec, disk.fs, old(disk.fs), Some(root), old(store.rows), store.rows, actions,
              Gits(actions, git), matches, cloned, n)
    ensures error.None? ==>
        && cloned == ClonesOf(actions)
        && Finished(codec, disk.fs, old(disk.fs), root, old(store.rows), store.rows, entries, actions,
             Gits(actions, git))
  {
    ghost var rows, before := store.rows, disk.fs;
    n := 0;
    var request := ByAlias(AliasesOf(entries));
    AliasesAreNamed(entries);
    var plan := PlanRegistry(codec, disk, Some(root), store, request);
    actions := plan.value;
    BlockedIsHindered(codec, before, root, rows, entries, actions);
    if Refusals(plan.value) { return Some(HydrationBlocked), [], actions, n; }
    PathsToClone(actions, codec, before, Some(root), rows, request);
    GitsAreSane(actions, git);
    var gits := Gits(plan.value, git);
    var failed;
    failed, cloned, n := CarryOut(codec, disk, Some(root), store, request, plan.value, gits, matches);
    if failed.Some? { return Some(HydrationFailed(failed.value)), cloned, actions, n; }
    CarriedOutConverges(codec, before, disk.fs, Some(root), rows, store.rows, request, actions, gits, matches);
    AllInPlace(codec, before, disk.fs, root, rows, store.rows, actions, gits, matches, entries);
    error := None;
  }

  lemma AliasesAreNamed(entries: seq<Entry>)
    requires AllOk(entries)
    ensures !Unnamed(ByAlias(AliasesOf(entries)))
  {
    forall i | 0 <= i < |entries| ensures AliasesOf(entries)[i] != "" { assert entries[i] in entries; }
  }

  // ----- the hydration plan of a dry run -----

  /** A known project as it is to be. */
  function Desired(p: Project, root: Abs, e: Entry): Project
    requires EntryOk(e)
  {
    p.(canonicalPath := Some(root + Below(e)), source := CANONICAL,
       cloneURL := if e.hint == "" then e.identity else e.hint)
  }

  /** What is at the desired place of a known project keeps it from being cloned there. */
  ghost predicate EntryRefused(codec: Codec, fs: Fs, root: Abs, known: Known, e: Entry)
    requires EntryOk(e) && KnownOk(known)
  {
    && e.identity in known.byIdentity
    && Classify(codec, fs, Some(root), Desired(known.byIdentity[e.identity], root, e)).kind == Refuse
  }

  /** `PlanEntries`, after a dry run without conflicts: a project that is not known is to be cloned, and one that is not
      in the manifest is left alone, so that only the known ones can be refused. */
  method PlanEntries(codec: Codec, disk: Disk, root: Abs, known: Known, entries: seq<Entry>) returns (refused: bool)
    requires AllOk(entries) && KnownOk(known)
    ensures refused <==> SomeRefused(codec, disk.fs, root, known, entries)
  {
    for i := 0 to |entries|
      invariant forall j :: 0 <= j < i ==> !EntryRefused(codec, disk.fs, root, known, entries[j])
    {
      var e := entries[i];
      assert e in entries;
      if e.identity in known.byIdentity {
        if Classify(codec, disk.fs, Some(root), Desired(known.byIdentity[e.identity], root, e)).kind == Refuse {
          return true;
        }
      }
    }
    return false;
  }

  // ----- the whole run -----

  /** The whole table after an import, on a disk. */
  ghost predicate RenewedFrom(fs: Fs, root: Abs, entries: seq<Entry>, before: Rows, after: Rows)
    requires AllOk(entries) && Sound(before)
  {
    RowsRenewed(HostOf(fs), root, entries, before, after)
  }

  /** A renewed row, in terms of the disk: with no hint the project keeps its clone URL; its local path is kept, unless
      both of its paths were the same and nothing was there. */
  lemma RenewedOnDisk(fs: Fs, root: Abs, e: Entry, p: Project)
    requires EntryOk(e) && Projects.Complete(p)
    ensures
      var now := Renewed(HostOf(fs), root, e, p);
      && now.id == p.id && now.remote == p.remote && now.alias == e.alias && now.source == CANONICAL
      && now.canonicalPath == Some(root + Below(e)) && now.cloneURL == (if e.hint == "" then p.cloneURL else e.hint)
      && now.localPath == if p.source == CANONICAL && p.localPath == p.canonicalPath
           && Stat(fs, p.localPath.value) == NotExist then now.canonicalPath else p.localPath
  {
    NoLinks(fs, p.canonicalPath.value);
    NoLinks(fs, root + Below(e));
  }

  /** After the import, every entry's project has its row at its place. */
  lemma ImportPlaces(fs: Fs, r: Run)
    requires Rooted(fs) && r.host == HostOf(fs) && WentThrough(r)
    ensures AllPlaced(r.after, r.root, r.entries)
  {
    forall e | e in r.entries ensures exists id <- r.after :: PlacedAs(r.after[id], r.root, e) {
      var i :| 0 <= i < |r.entries| && r.entries[i] == e;
      var id := ImportPlacesOne(fs, r, i);
    }
  }

  lemma ImportPlacesOne(fs: Fs, r: Run, i: nat) returns (id: nat)
    requires Rooted(fs) && r.host == HostOf(fs) && WentThrough(r) && i < |r.entries|
    ensures id in r.after && PlacedAs(r.after[id], r.root, r.entries[i])
  {
    HostIsLawful(fs);
    id := EntryHasRow(r, i);
    SettledIsPlaced(fs, r.root, r.entries[i], r.after[id]);
  }

  ghost predicate DryRunBlocked(host: Host, root: Abs, entries: seq<Entry>, projects: seq<Project>)
    requires AllOk(entries) && AllComplete(projects)
  {
    DriftConflicting in DryKinds(host, root, Knowledge(host, entries, projects), entries)
  }

  /** The dry run, and the plan it allows: the check for conflicts that comes next cannot find any. */
  method PlanBoth(host: Host, entries: seq<Entry>, projects: seq<Project>, root: Abs)
    returns (error: Option<ApplyError>, changes: seq<Change>)
    requires AllComplete(projects) && Hosts.Lawful(host)
    ensures error.None? ==>
        AllOk(entries) && IsPlan(host, root, entries, projects, changes) && NoConflict(changes)
    ensures error.Some? ==> error.value.InvalidManifest? || error.value.ManifestBlocked?
    ensures error == Some(InvalidManifest) <==> !AllOk(entries)
    ensures error == Some(ManifestBlocked) <==> AllOk(entries) && DryRunBlocked(host, root, entries, projects)
  {
    changes := [];
    var drift := BuildDryRunPlan(host, entries, projects, Some(root));
    if drift.None? { return Some(InvalidManifest), changes; }
    if drift.value.blocked { return Some(ManifestBlocked), changes; }
    var plan := PlanImport.PlanImport(host, entries, projects, Some(root));
    DryRunRefinesPlan(host, root, entries, projects, plan.value);
    return None, plan.value;
  }

  /** Hydrating the entries does not change the rows of other projects. */
  lemma HydratingLeavesOthers(codec: Codec, fs: Fs, root: Abs, rows: Rows, after: Rows, before: Rows,
                              entries: seq<Entry>)
    requires Sound(rows) && AllOk(entries) && OthersStay(rows, before, entries)
    requires AllPlaced(rows, root, entries)
    requires AllHydrated(codec, fs, Some(root), ByAlias(AliasesOf(entries)), rows, after)
    ensures OthersStay(after, before, entries)
  {
    forall id | id in rows && rows[id].remote !in WantedAliases(entries) ensures after[id] == rows[id] {
      if rows[id].alias in AliasesOf(entries) {
        var i :| 0 <= i < |entries| && AliasesOf(entries)[i] == rows[id].alias;
        var e := entries[i];
        assert e in entries;
        var other :| other in rows && PlacedAs(rows[other], root, e);
        SameAliasSameRow(rows, id, other);
        WantedHas(entries, i);
      }
    }
  }

  ghost predicate NoneAtRoot(rows: Rows)
    requires Sound(rows)
  {
    forall id <- rows :: HydrationPath(rows[id]) != []
  }

  /** No project is at the root directory after the import if none was before. */
  lemma StillNoneAtRoot(fs: Fs, r: Run)
    requires Rooted(fs) && r.host == HostOf(fs) && WentThrough(r) && r.root != [] && NoneAtRoot(r.rows)
    ensures NoneAtRoot(r.after)
  {
    forall id | id in r.after ensures HydrationPath(r.after[id]) != [] {
      if r.after[id].remote in WantedAliases(r.entries) {
        var i := WantedEntry(r.entries, r.after[id].remote);
        var id' := ImportPlacesOne(fs, r, i);
        SameRemoteSameRow(r.after, id, id');
      } else {
        UnwantedStays(r, id);
      }
    }
  }

  /** The planner's knowledge of the rows. */
  method KnownRows(host: Host, entries: seq<Entry>, projects: seq<Project>) returns (known: Known)
    requires AllOk(entries) && AllComplete(projects)
    ensures known == Knowledge(host, entries, projects)
  {
    var wanted := CollectWanted(entries);
    var byIdentity, byPath, aliasOwner := CollectRows(host, wanted.value, projects);
    var seen := CollectSeenPaths(host, wanted.value, projects);
    known := Known(byIdentity, byPath, aliasOwner, seen);
  }

  /** The row of an entry's project has another alias, under which there is an untouched placeholder at its place. */
  predicate HasPlaceholder(codec: Codec, fs: Fs, root: Abs, p: Project, e: Entry)
    requires EntryOk(e)
  {
    && p.remote == e.identity && p.alias != e.alias
    && Judge(codec, fs, root + Below(e), p.alias, e.identity) == (PlaceholderThere, CloneIt)
  }

  predicate LosesPlaceholder(codec: Codec, fs: Fs, root: Abs, rows: Rows, e: Entry)
    requires EntryOk(e)
  {
    exists id <- rows :: HasPlaceholder(codec, fs, root, rows[id], e)
  }

  predicate SomeLost(codec: Codec, fs: Fs, root: Abs, rows: Rows, entries: seq<Entry>)
    requires AllOk(entries)
  {
    exists e <- entries :: LosesPlaceholder(codec, fs, root, rows, e)
  }

  /** A known project that may be cloned to its place under its stored alias may not be under a new one exactly if its
      placeholder is there. */
  lemma HinderedByAlias(codec: Codec, fs: Fs, root: Abs, p: Project, e: Entry)
    requires Rooted(fs) && Projects.Complete(p) && EntryOk(e) && p.remote == e.identity
    requires Classify(codec, fs, Some(root), Desired(p, root, e)).kind != Refuse
    ensures Hindered(codec, fs, root, e) <==> HasPlaceholder(codec, fs, root, p, e)
    ensures !InTheWay(fs, ParentOf(root, e))
  {
    var path := root + Below(e);
    WithinIsProperPrefix(path, root);
    NotInTheWay(codec, fs, path, p.alias, e.identity);
    if p.alias != e.alias { OtherAlias(codec, fs, path, e.alias, p.alias, e.identity); }
  }

  lemma OnlyRow(codec: Codec, fs: Fs, root: Abs, rows: Rows, p: Project, e: Entry)
    requires EntryOk(e) && p.id in rows && rows[p.id] == p
    requires forall id <- rows :: rows[id].remote == e.identity ==> rows[id] == p
    ensures LosesPlaceholder(codec, fs, root, rows, e) <==> HasPlaceholder(codec, fs, root, p, e)
  {
  }

  lemma HinderedIfKnown(codec: Codec, fs: Fs, root: Abs, rows: Rows, known: Known, e: Entry)
    requires Rooted(fs) && Placeholders.Lawful(codec) && KnownOk(known) && EntryOk(e)
    requires !PlanImport.Blocked(HostOf(fs), root, known, e) && !EntryRefused(codec, fs, root, known, e)
    requires e.identity in known.byIdentity ==>
        var p := known.byIdentity[e.identity]; p.id in rows && rows[p.id] == p && p.remote == e.identity
    requires forall id <- rows :: rows[id].remote == e.identity ==>
        e.identity in known.byIdentity && known.byIdentity[e.identity] == rows[id]
    ensures Hindered(codec, fs, root, e) <==> LosesPlaceholder(codec, fs, root, rows, e)
    ensures !InTheWay(fs, ParentOf(root, e))
  {
    if e.identity in known.byIdentity {
      HinderedByAlias(codec, fs, root, known.byIdentity[e.identity], e);
      OnlyRow(codec, fs, root, rows, known.byIdentity[e.identity], e);
    } else {
      FreeIsNotRefused(codec, fs, root, e);
      NotInTheWay(codec, fs, root + Below(e), e.alias, e.identity);
    }
  }

  /** An entry that passes the dry run and its hydration plan is hindered exactly if it loses its placeholder. */
  lemma HinderedIsLost(codec: Codec, fs: Fs, root: Abs, rows: Rows, entries: seq<Entry>, projects: seq<Project>,
                       e: Entry)
    requires Rooted(fs) && Placeholders.Lawful(codec) && Sound(rows) && Lists(projects, rows) && AllComplete(projects)
    requires EntryOk(e)
    requires
      var known := Knowledge(HostOf(fs), entries, projects);
      !PlanImport.Blocked(HostOf(fs), root, known, e) && !EntryRefused(codec, fs, root, known, e)
    ensures Hindered(codec, fs, root, e) <==> LosesPlaceholder(codec, fs, root, rows, e)
    ensures !InTheWay(fs, ParentOf(root, e))
  {
    KnownIsRow(HostOf(fs), entries, projects, rows, e.identity);
    HinderedIfKnown(codec, fs, root, rows, Knowledge(HostOf(fs), entries, projects), e);
  }

  /** A place that nothing is in the way of can be cloned to. */
  lemma FreeIsNotRefused(codec: Codec, fs: Fs, root: Abs, e: Entry)
    requires Rooted(fs) && Placeholders.Lawful(codec) && EntryOk(e)
    requires !Hosts.PathConflict(HostOf(fs), root + Below(e), Some(root))
    ensures !Hindered(codec, fs, root, e)
  {
    CloneIsPlannedFor(codec, fs, root + Below(e), e.alias, e.identity);
  }

  ghost predicate SomeRefused(codec: Codec, fs: Fs, root: Abs, known: Known, entries: seq<Entry>)
    requires AllOk(entries) && KnownOk(known)
  {
    exists e <- entries :: EntryRefused(codec, fs, root, known, e)
  }

  /** Whether a bootstrap stops before it changes anything, and why. */
  ghost function EarlyStop(codec: Codec, fs: Fs, root: Abs, entries: seq<Entry>, projects: seq<Project>)
    : Option<ApplyError>
    requires AllComplete(projects)
  {
    if !AllOk(entries) then Some(InvalidManifest)
    else if DryRunBlocked(HostOf(fs), root, entries, projects) then Some(ManifestBlocked)
    else if SomeRefused(codec, fs, root, Knowledge(HostOf(fs), entries, projects), entries) then Some(EntriesRefused)
    else None
  }

  /** The part of a bootstrap that only looks: the dry run, its hydration plan, and the import plan. */
  method PlanRun(codec: Codec, disk: Disk, host: Host, root: Abs, projects: seq<Project>, entries: seq<Entry>)
    returns (error: Option<ApplyError>, changes: seq<Change>)
    requires AllComplete(projects) && host == HostOf(disk.fs) && Hosts.Lawful(host)
    ensures error == EarlyStop(codec, disk.fs, root, entries, projects)
    ensures error.None? ==> AllOk(entries) && IsPlan(host, root, entries, projects, changes) && NoConflict(changes)
  {
    error, changes := PlanBoth(host, entries, projects, root);
    if error.Some? { return; }
    var known := KnownRows(host, entries, projects);
    var refused := PlanEntries(codec, disk, root, known, entries);
    if refused { return Some(EntriesRefused), changes; }
  }

  /** The places after the parents were made, in terms of what was there before. */
  lemma PlacesAfterwards(codec: Codec, fs: Fs, before: Fs, root: Abs, rows: Rows, entries: seq<Entry>,
                         projects: seq<Project>, changes: seq<Change>)
    requires Rooted(fs) && Rooted(before) && Placeholders.Lawful(codec) && Sound(rows) && Lists(projects, rows)
    requires AllOk(entries) && AllComplete(projects) && ParentsMade(fs, before, root, entries)
    requires IsPlan(HostOf(before), root, entries, projects, changes) && NoConflict(changes)
    requires !SomeRefused(codec, before, root, Knowledge(HostOf(before), entries, projects), entries)
    ensures forall e <- entries :: !InTheWay(before, ParentOf(root, e))
    ensures forall e <- entries :: Hindered(codec, fs, root, e) <==> LosesPlaceholder(codec, before, root, rows, e)
  {
    var known := Knowledge(HostOf(before), entries, projects);
    ConflictFreeIsClear(HostOf(before), root, known, entries, changes);
    ClearAreApart(before, root, entries, projects);
    forall e | e in entries
      ensures !InTheWay(before, ParentOf(root, e))
      ensures Hindered(codec, fs, root, e) <==> LosesPlaceholder(codec, before, root, rows, e)
    {
      var i :| 0 <= i < |entries| && entries[i] == e;
      assert ClearEntry(HostOf(before), root, known, entries, i);
      HinderedIsLost(codec, before, root, rows, entries, projects, e);
      PlaceIsJudgedTheSame(codec, fs, before, root, entries, e, e.alias);
    }
  }

  /** From the dry run to the imported rows. */
  method Import(codec: Codec, disk: Disk, root: Abs, store: ProjectStore, entries: seq<Entry>)
    returns (error: Option<ApplyError>, ghost projects: seq<Project>)
    requires store.Valid() && disk.Valid() && Placeholders.Lawful(codec) && root != [] && NoneAtRoot(store.rows)
    modifies store, disk
    ensures store.Valid() && disk.Valid() && Lists(projects, old(store.rows)) && AllComplete(projects)
    ensures error.Some? ==> store.rows == old(store.rows)
    ensures
      var stop := EarlyStop(codec, old(disk.fs), root, entries, projects);
      && (stop.Some? ==> error == stop && disk.fs == old(disk.fs))
      && (stop.None? ==> error.None? || error == Some(ImportFailed))
    ensures error == Some(ImportFailed) ==> old(store.failing).Some?
    ensures AllOk(entries) ==> ParentsMade(disk.fs, old(disk.fs), root, entries)
    ensures error.None? ==>
        && AllOk(entries) && NoneAtRoot(store.rows)
        && RenewedFrom(old(disk.fs), root, entries, old(store.rows), store.rows)
        && (forall e <- entries :: IsFolder(disk.fs, ParentOf(root, e)))
        && AllPlaced(store.rows, root, entries)
        && forall e <- entries ::
             Hindered(codec, disk.fs, root, e) <==> LosesPlaceholder(codec, old(disk.fs), root, old(store.rows), e)
  {
    ghost var fs, rows := disk.fs, store.rows;
    HostIsLawful(fs);
    var host := HostOf(disk.fs);
    var listed := store.ListProjects();
    projects := listed;
    ListedApart(projects, rows);
    var changes;
    error, changes := PlanRun(codec, disk, host, root, listed, entries);
    if error.Some? { return; }
    var ok := MakeParents(disk, root, entries);
    PlacesAfterwards(codec, disk.fs, fs, root, rows, entries, projects, changes);
    if !ok { return Some(NoParents), projects; }
    ConflictFreeFits(host, root, entries, projects, rows, changes);
    var imported;
    ghost var k;
    imported, k := ApplyImportPlan(store, changes, listed, true);
    if imported.Failed? { return Some(ImportFailed), projects; }
    ghost var r := Run(host, root, entries, projects, rows, changes, imported.added, store.rows);
    ImportPlaces(fs, r);
    ImportRenews(r);
    StillNoneAtRoot(fs, r);
  }

  /** The state between the import and the clones, and whether its plan is blocked: exactly if a project lost its
      placeholder to a new alias. */
  ghost predicate Imported(codec: Codec, fs: Fs, before: Fs, root: Abs, rows: Rows, start: Rows, entries: seq<Entry>,
                           actions: seq<Action>, blocked: bool)
    requires Sound(rows) && Sound(start)
  {
    && AllOk(entries) && ParentsMade(fs, before, root, entries)
    && RenewedFrom(before, root, entries, start, rows)
    && AllPlaced(rows, root, entries)
    && PlansEntries(actions, codec, fs, root, rows, entries)
    && (blocked <==> SomeLost(codec, before, root, start, entries))
  }

  lemma ImportedIsSo(codec: Codec, fs: Fs, before: Fs, root: Abs, rows: Rows, start: Rows, entries: seq<Entry>,
                     actions: seq<Action>, blocked: bool)
    requires Sound(rows) && Sound(start) && AllOk(entries) && ParentsMade(fs, before, root, entries)
    requires RenewedFrom(before, root, entries, start, rows)
    requires AllPlaced(rows, root, entries)
    requires PlansEntries(actions, codec, fs, root, rows, entries)
    requires blocked <==> exists e <- entries :: Hindered(codec, fs, root, e)
    requires forall e <- entries :: Hindered(codec, fs, root, e) <==> LosesPlaceholder(codec, before, root, start, e)
    ensures Imported(codec, fs, before, root, rows, start, entries, actions, blocked)
  {
  }

  predicate AfterImport(error: ApplyError) { error.HydrationBlocked? || error.HydrationFailed? }

  /** The part of a bootstrap after the import. */
  method HydrateImported(codec: Codec, disk: Disk, root: Abs, store: ProjectStore, entries: seq<Entry>,
                         git: Action -> GitOutcome, matches: Action -> bool, ghost before: Fs, ghost start: Rows)
    returns (error: Option<ApplyError>, cloned: seq<Action>, ghost actions: seq<Action>, ghost n: nat)
    requires store.Valid() && disk.Valid() && Placeholders.Lawful(codec) && NoneAtRoot(store.rows)
    requires forall a: Action :: GitIsSane(git(a))
    requires AllOk(entries) && ParentsMade(disk.fs, before, root, entries) && Sound(start)
    requires RenewedFrom(before, root, entries, start, store.rows)
    requires AllPlaced(store.rows, root, entries)
    requires forall e <- entries ::
        Hindered(codec, disk.fs, root, e) <==> LosesPlaceholder(codec, before, root, start, e)
    modifies store, disk
    ensures store.Valid() && disk.Valid() && (error.Some? ==> AfterImport(error.value))
    ensures Imported(codec, old(disk.fs), before, root, old(store.rows), start, entries, actions,
                error == Some(HydrationBlocked))
    ensures error == Some(HydrationBlocked) ==>
        disk.fs == old(disk.fs) && store.rows == old(store.rows) && cloned == []
    ensures error.Some? && error.value.HydrationFailed? ==>
        Ended(error.value.why, codec, disk.fs, old(disk.fs), Some(root), old(store.rows), store.rows, actions,
              Gits(actions, git), matches, cloned, n)
    ensures error.None? ==>
        && cloned == ClonesOf(actions) && OthersStay(store.rows, start, entries)
        && Finished(codec, disk.fs, old(disk.fs), root, old(store.rows), store.rows, entries, actions,
             Gits(actions, git))
  {
    ghost var middle, rows := disk.fs, store.rows;
    error, cloned, actions, n := Hydrate(codec, disk, root, store, entries, git, matches);
    ImportedIsSo(codec, middle, before, root, rows, start, entries, actions, error == Some(HydrationBlocked));
    if error.None? { HydratingLeavesOthers(codec, middle, root, rows, store.rows, start, entries); }
  }

  /** `Apply`: dry run, hydration plan, import plan, parents, import, new plan, clones, places.  A dry run that is not
      blocked rules a conflict of the import out, and what is in the way of the parents.  After a success every entry's
      project has its row at its place and its checkout is there, planning again finds every project present, and
      nothing else has changed but for new parents.  A failure before the import leaves the registry alone.  After it,
      the new plan is blocked exactly if a project lost its placeholder to a new alias; if a clone fails, a prefix of
      the new plan is done. */
  method Apply(codec: Codec, disk: Disk, root: Abs, store: ProjectStore, entries: seq<Entry>,
               git: Action -> GitOutcome, matches: Action -> bool)
    returns (error: Option<ApplyError>, cloned: seq<Action>, ghost projects: seq<Project>, ghost middle: Fs,
             ghost rows: Rows, ghost actions: seq<Action>, ghost n: nat)
    requires store.Valid() && disk.Valid() && Placeholders.Lawful(codec) && root != [] && NoneAtRoot(store.rows)
    requires forall a: Action :: GitIsSane(git(a))
    modifies store, disk
    ensures store.Valid() && disk.Valid() && Sound(rows) && Lists(projects, old(store.rows)) && AllComplete(projects)
    ensures
      var stop := EarlyStop(codec, old(disk.fs), root, entries, projects);
      && (stop.Some? ==> error == stop && store.rows == old(store.rows) && disk.fs == old(disk.fs) && cloned == [])
      && (stop.None? ==> error.None? || error == Some(ImportFailed) || AfterImport(error.value))
    ensures error == Some(ImportFailed) ==>
        && store.rows == old(store.rows) && AllOk(entries) && ParentsMade(disk.fs, old(disk.fs), root, entries)
        && old(store.failing).Some? && cloned == []
    ensures error.None? || AfterImport(error.value) ==>
        Imported(codec, middle, old(disk.fs), root, rows, old(store.rows), entries, actions,
            error == Some(HydrationBlocked))
    ensures error == Some(HydrationBlocked) ==> disk.fs == middle && store.rows == rows && cloned == []
    ensures error.Some? && error.value.HydrationFailed? ==>
        Ended(error.value.why, codec, disk.fs, middle, Some(root), rows, store.rows, actions, Gits(actions, git),
              matches, cloned, n)
    ensures error.None? ==>
        && AllOk(entries) && cloned == ClonesOf(actions) && OthersStay(store.rows, old(store.rows), entries)
        && Finished(codec, disk.fs, middle, root, rows, store.rows, entries, actions, Gits(actions, git))
  {
    cloned, actions, n := [], [], 0;
    error, projects := Import(codec, disk, root, store, entries);
    middle, rows := disk.fs, store.rows;
    if error.Some? { return; }
    error, cloned, actions, n :=
      HydrateImported(codec, disk, root, store, entries, git, matches, old(disk.fs), old(store.rows));
  }
}
