/** A bootstrap that takes a placeholder from its project: the manifest has another alias for it. */
module LostPlaceholders {
  import opened Paths
  import opened Hosts
  import opened Projects
  import opened Manifest
  import opened PlanImport
  import opened Reconciliation
  import opened Disks
  import opened Placeholders
  import opened Cloning
  import opened Planner
  import opened Execution
  import opened Bootstrap
  import opened DiskHosts
  import opened BootstrapRun

  // ----- one project, known under one alias and wanted under another, at its place -----

  datatype Rename = Rename(alias: string, other: string, identity: string, root: Abs, name: string)

  predicate Proper(r: Rename) {
    r.alias != r.other && r.alias != "" && r.other != "" && r.identity != "" && r.root != [] && Plain(r.name)
  }

  function PlaceOf(r: Rename): Abs
    requires Proper(r)
  {
    r.root + [r.name]
  }

  function RowOf(r: Rename): (p: Project)
    requires Proper(r)
    ensures Projects.Complete(p)
  {
    Project(1, r.alias, r.identity, r.identity, Some(PlaceOf(r)), Some(PlaceOf(r)), CANONICAL)
  }

  function EntryOf(r: Rename): (e: Entry)
    requires Proper(r)
    ensures EntryOk(e) && r.root + Below(e) == PlaceOf(r)
  {
    Entry(VERSION, r.identity, r.other, Some(Path(false, [r.name])), "")
  }

  lemma OneIsListed(projects: seq<Project>, p: Project)
    requires Lists(projects, map[p.id := p])
    ensures projects == [p]
  {
    var rows := map[p.id := p];
    assert rows[p.id] in projects;
    forall i | 0 <= i < |projects| ensures projects[i] == p { assert projects[i].id in rows; }
    assert |projects| > 1 ==> projects[0].id != projects[1].id;
  }

  /** What the planner knows: the row gives up its alias, and keeps nobody else out of its place. */
  lemma OneIsKnown(host: Host, r: Rename)
    requires Proper(r) && Canonical(host, PlaceOf(r)) == PlaceOf(r)
    ensures
      var known := Knowledge(host, [EntryOf(r)], [RowOf(r)]);
      && known.byIdentity == map[r.identity := RowOf(r)] && known.aliasOwner == map[]
      && forall path <- known.seenPaths :: known.seenPaths[path] == r.identity
  {
    var e, p := EntryOf(r), RowOf(r);
    assert [e][..0] == [] && [p][..0] == [];
    assert WantedAliases([e]) == map[r.identity := r.other];
    assert Know(host, WantedAliases([e]), [p]) ==
        KnowOne(host, WantedAliases([e]), Known(map[], map[], map[], map[]), p);
  }

  /** The dry run finds the project unchanged, at its place. */
  lemma DryRunPasses(fs: Fs, r: Rename)
    requires Proper(r)
    ensures !DryRunBlocked(HostOf(fs), r.root, [EntryOf(r)], [RowOf(r)])
  {
    var host, e := HostOf(fs), EntryOf(r);
    NoLinks(fs, PlaceOf(r));
    NoLinks(fs, r.root);
    OneIsKnown(host, r);
    var known := Knowledge(host, [e], [RowOf(r)]);
    assert [e][..0] == [];
    WithinIsProperPrefix(PlaceOf(r), r.root);
    assert DryKind(host, r.root, known, Start(known), e) == DriftUnchanged;
    assert DryKinds(host, r.root, known, [e]) == [] + [DriftUnchanged];
  }

  /** So does its hydration plan, which still has the old alias. */
  lemma PlaceholderIsFound(codec: Codec, fs: Fs, r: Rename)
    requires Proper(r) && Placeholders.Lawful(codec) && Untouched(codec, fs, PlaceOf(r), r.alias, r.identity, {})
    ensures HasPlaceholder(codec, fs, r.root, RowOf(r), EntryOf(r))
    ensures !EntryRefused(codec, fs, r.root, Knowledge(HostOf(fs), [EntryOf(r)], [RowOf(r)]), EntryOf(r))
  {
    PlaceholderIsRecognised(codec, fs, PlaceOf(r), r.alias, r.identity);
    WithinIsProperPrefix(PlaceOf(r), r.root);
    NoLinks(fs, PlaceOf(r));
    OneIsKnown(HostOf(fs), r);
  }

  /** What stops a bootstrap before the import is the dry run or its hydration plan. */
  lemma NotStoppedEarly(codec: Codec, fs: Fs, root: Abs, e: Entry, p: Project)
    requires EntryOk(e) && Projects.Complete(p) && !DryRunBlocked(HostOf(fs), root, [e], [p])
    requires !EntryRefused(codec, fs, root, Knowledge(HostOf(fs), [e], [p]), e)
    ensures EarlyStop(codec, fs, root, [e], [p]).None?
  {
  }

  /** The plan after the import is blocked. */
  lemma LosesIt(codec: Codec, fs: Fs, r: Rename, rows: Rows)
    requires Proper(r) && Placeholders.Lawful(codec) && Untouched(codec, fs, PlaceOf(r), r.alias, r.identity, {})
    requires 1 in rows && rows[1] == RowOf(r)
    ensures SomeLost(codec, fs, r.root, rows, [EntryOf(r)])
  {
    PlaceholderIsFound(codec, fs, r);
    assert HasPlaceholder(codec, fs, r.root, rows[1], EntryOf(r));
    assert EntryOf(r) in [EntryOf(r)];
  }

  /** The registry gets the new alias, and then the placeholder is refused for having the old one: the project can no
      longer be cloned, although nothing was in its way before. */
  method RenamePlaceholder(codec: Codec, disk: Disk, store: ProjectStore, r: Rename, git: Action -> GitOutcome,
                           matches: Action -> bool) returns (error: Option<ApplyError>)
    requires Proper(r) && store.Valid() && disk.Valid() && Placeholders.Lawful(codec)
    requires forall a: Action :: GitIsSane(git(a))
    requires store.rows == map[1 := RowOf(r)] && store.failing.None?
    requires Untouched(codec, disk.fs, PlaceOf(r), r.alias, r.identity, {})
    modifies store, disk
    ensures error == Some(HydrationBlocked)
    ensures exists id <- store.rows :: PlacedAs(store.rows[id], r.root, EntryOf(r))
  {
    ghost var fs := disk.fs;
    var cloned;
    ghost var projects, middle, rows, actions, n;
    error, cloned, projects, middle, rows, actions, n :=
      Apply(codec, disk, r.root, store, [EntryOf(r)], git, matches);
    OneIsListed(projects, RowOf(r));
    DryRunPasses(fs, r);
    PlaceholderIsFound(codec, fs, r);
    NotStoppedEarly(codec, fs, r.root, EntryOf(r), RowOf(r));
    LosesIt(codec, fs, r, old(store.rows));
    assert EntryOf(r) in [EntryOf(r)];
  }
}
