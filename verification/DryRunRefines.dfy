/** The dry run and the import planner agree, but for a workspace root that already exists. */
module DryRunRefines {
  import opened Paths
  import opened Hosts
  import opened Projects
  import opened Manifest
  import opened PlanImport
  import opened ConflictFree
  import opened Reconciliation

  /** The one case the two treat differently: the project is to be placed in the workspace root itself, and something
      is there. */
  predicate RootTaken(host: Host, root: Abs, known: Known, e: Entry)
    requires EntryOk(e) && KnownOk(known)
  {
    && Canonical(host, root + Below(e)) == Canonical(host, root) && host.lstat(root + Below(e)) != Missing
    && (e.identity in known.byIdentity ==>
          var p := known.byIdentity[e.identity];
          Canonical(host, CanonicalOf(p)) != DryDesired(host, root, e)
          && Canonical(host, p.localPath.value) != DryDesired(host, root, e))
  }

  /** missing is an add, moved an update, and unchanged is unchanged or an update. */
  predicate Fits(kind: DriftKind, action: ChangeAction) {
    match kind
    case DriftMissing => action == Add
    case DriftMoved => action == Update
    case DriftUnchanged => action == Unchanged || action == Update
    case _ => false
  }

  lemma SamePath(host: Host, root: Abs, e: Entry)
    requires Lawful(host) && EntryOk(e)
    ensures DryDesired(host, root, e) == DesiredPath(host, root, e)
  {
    CanonicalBelow(host, root, Below(e));
  }

  lemma SameDirectory(host: Host, root: Abs, known: Known, e: Entry)
    requires Lawful(host) && EntryOk(e) && KnownOk(known)
    requires e.identity in known.byIdentity ==> !AtDesiredPath(host, root, e, known.byIdentity[e.identity])
    ensures
      var desired := DesiredPath(host, root, e);
      OthersPath(known, desired, e.identity) || DirectoryTaken(host, root, known, e, desired) <==>
      Blocked(host, root, known, e) || (RootTaken(host, root, known, e) && !OthersPath(known, desired, e.identity))
  {
    SamePath(host, root, e);
  }

  /** From the same state, the dry run passes an entry exactly if the planner does and the root is not taken. */
  lemma SameDecision(host: Host, root: Abs, known: Known, s: PlanState, e: Entry)
    requires Lawful(host) && EntryOk(e) && KnownOk(known)
    ensures DryKind(host, root, known, s, e) != DriftConflicting <==>
            Clear(host, root, known, s, e) && !RootTaken(host, root, known, e)
    ensures DryKind(host, root, known, s, e) != DriftConflicting ==>
            Fits(DryKind(host, root, known, s, e), ChangeOf(host, root, known, e).action)
    ensures Clear(host, root, known, s, e) ==> DryNext(host, root, s, e) == Step(host, root, known, s, e).0
  {
    SamePath(host, root, e);
    if e.identity in known.byIdentity && AtDesiredPath(host, root, e, known.byIdentity[e.identity]) {
    } else {
      SameDirectory(host, root, known, e);
    }
  }

  /** Every entry is clear, one after the other. */
  ghost predicate ClearSoFar(host: Host, root: Abs, known: Known, entries: seq<Entry>)
    requires AllOk(entries) && KnownOk(known)
  {
    entries == [] ||
    var n := |entries| - 1;
    && ClearSoFar(host, root, known, entries[..n])
    && Clear(host, root, known, After(host, root, known, entries[..n]), entries[n])
  }

  lemma PlannedConflict(host: Host, root: Abs, known: Known, s: PlanState, e: Entry, change: Change)
    requires EntryOk(e) && KnownOk(known) && Planned(host, root, known, s, e, change)
    ensures Clear(host, root, known, s, e) == (change.action != Conflict)
  {
  }

  lemma OneMoreChange(changes: seq<Change>)
    requires changes != []
    ensures
      var n := |changes| - 1;
      NoConflict(changes) == (NoConflict(changes[..n]) && changes[n].action != Conflict)
  {
  }

  /** A plan has no conflict exactly if every entry is clear. */
  lemma {:induction false} NoConflictIsClear(host: Host, root: Abs, known: Known, entries: seq<Entry>,
      changes: seq<Change>)
    requires AllOk(entries) && KnownOk(known) && PlanFor(host, root, known, entries, changes)
    ensures NoConflict(changes) == ClearSoFar(host, root, known, entries)
  {
    if entries != [] {
      var n := |entries| - 1;
      NoConflictIsClear(host, root, known, entries[..n], changes[..n]);
      OneMoreChange(changes);
      PlannedConflict(host, root, known, After(host, root, known, entries[..n]), entries[n], changes[n]);
    }
  }

  predicate NoRootTaken(host: Host, root: Abs, known: Known, entries: seq<Entry>)
    requires AllOk(entries) && KnownOk(known)
  {
    forall e <- entries :: !RootTaken(host, root, known, e)
  }

  /** The kinds of drift fit the changes planned for the entries. */
  predicate AllFit(host: Host, root: Abs, known: Known, entries: seq<Entry>, kinds: seq<DriftKind>)
    requires AllOk(entries) && KnownOk(known)
  {
    && |kinds| == |entries|
    && (entries == [] ||
        var n := |entries| - 1;
        && AllFit(host, root, known, entries[..n], kinds[..n])
        && Fits(kinds[n], ChangeOf(host, root, known, entries[n]).action))
  }

  lemma {:induction false} AllFitAt(host: Host, root: Abs, known: Known, entries: seq<Entry>, kinds: seq<DriftKind>,
                                    i: nat)
    requires AllOk(entries) && KnownOk(known) && AllFit(host, root, known, entries, kinds) && i < |entries|
    ensures |kinds| == |entries| && Fits(kinds[i], ChangeOf(host, root, known, entries[i]).action)
  {
    var n := |entries| - 1;
    if i < n { AllFitAt(host, root, known, entries[..n], kinds[..n], i); }
  }

  lemma {:induction false} DryRunAgrees(host: Host, root: Abs, known: Known, entries: seq<Entry>)
    requires Lawful(host) && AllOk(entries) && KnownOk(known)
    ensures
      var kinds := DryKinds(host, root, known, entries);
      && (DriftConflicting !in kinds <==>
          ClearSoFar(host, root, known, entries) && NoRootTaken(host, root, known, entries))
      && (DriftConflicting !in kinds ==> AllFit(host, root, known, entries, kinds))
    ensures ClearSoFar(host, root, known, entries) ==>
        DryAfter(host, root, known, entries) == After(host, root, known, entries)
  {
    if entries != [] {
      var n := |entries| - 1;
      DryRunAgrees(host, root, known, entries[..n]);
      NoRootPrefix(host, root, known, entries);
      SameDecision(host, root, known, After(host, root, known, entries[..n]), entries[n]);
      var earlier := DryKinds(host, root, known, entries[..n]);
      var kind := DryKind(host, root, known, DryAfter(host, root, known, entries[..n]), entries[n]);
      assert DryKinds(host, root, known, entries) == earlier + [kind];
      assert (earlier + [kind])[..n] == earlier;
    }
  }

  lemma NoRootPrefix(host: Host, root: Abs, known: Known, entries: seq<Entry>)
    requires AllOk(entries) && KnownOk(known) && entries != []
    ensures
      var n := |entries| - 1;
      NoRootTaken(host, root, known, entries) <==>
      NoRootTaken(host, root, known, entries[..n]) && !RootTaken(host, root, known, entries[n])
  {
  }

  /** Where a place leads out of the workspace, both find a conflict. */
  lemma OutsideConflicts(host: Host, root: Abs, known: Known, s: PlanState, e: Entry)
    requires Lawful(host) && EntryOk(e) && KnownOk(known)
    requires !(Canonical(host, root) <= Canonical(host, root + Below(e)))
    ensures !Clear(host, root, known, s, e) && DryKind(host, root, known, s, e) == DriftConflicting
  {
    WithinRootIsPrefix(host, root, e);
    SamePath(host, root, e);
  }

  /** The dry run refines the planner: if it is not blocked, the plan has no conflict and its actions are those the
      drifts announce.  The other way round, a plan without conflicts passes the dry run exactly if no project is to
      take the place of an existing workspace root. */
  lemma DryRunRefinesPlan(host: Host, root: Abs, entries: seq<Entry>, projects: seq<Project>, changes: seq<Change>)
    requires Lawful(host) && AllOk(entries) && AllComplete(projects) && IsPlan(host, root, entries, projects, changes)
    ensures
      var known := Knowledge(host, entries, projects);
      var kinds := DryKinds(host, root, known, entries);
      && (DriftConflicting !in kinds <==> NoConflict(changes) && NoRootTaken(host, root, known, entries))
      && (DriftConflicting !in kinds ==>
            |changes| == |kinds| && forall i :: 0 <= i < |kinds| ==> Fits(kinds[i], changes[i].action))
  {
    var known := Knowledge(host, entries, projects);
    DryRunAgrees(host, root, known, entries);
    NoConflictIsClear(host, root, known, entries, changes);
    if NoConflict(changes) { ConflictFreeIsClear(host, root, known, entries, changes); }
    var kinds := DryKinds(host, root, known, entries);
    if DriftConflicting !in kinds {
      forall i | 0 <= i < |kinds| ensures Fits(kinds[i], changes[i].action) {
        AllFitAt(host, root, known, entries, kinds, i);
      }
    }
  }

  lemma ClearIsConflictFree(host: Host, root: Abs, known: Known, entries: seq<Entry>, changes: seq<Change>)
    requires AllOk(entries) && KnownOk(known) && PlanFor(host, root, known, entries, changes)
    ensures AllClear(host, root, known, entries) <==> NoConflict(changes)
    ensures |changes| == |entries| && (NoConflict(changes) ==>
        forall i :: 0 <= i < |entries| ==> changes[i] == ChangeOf(host, root, known, entries[i]))
  {
    if NoConflict(changes) { ConflictFreeIsClear(host, root, known, entries, changes); }
    if AllClear(host, root, known, entries) {
      forall c | c in changes ensures c.action != Conflict {
        var i :| 0 <= i < |changes| && changes[i] == c;
        assert ClearEntry(host, root, known, entries, i);
        PlannedChange(host, root, known, entries, changes, i);
      }
    }
  }

  // ----- the case in which they differ -----

  /** A machine whose workspace root "src" is an empty directory. */
  function EmptyWorkspace(): Host {
    Host(p => if p == [] || p == ["src"] then Present else Missing,
         p => if p == [] then Directory(true, false) else if p == ["src"] then Directory(true, true) else NotThere,
         p => if p == [] || p == ["src"] then At(p) else Absent)
  }

  /** One project that is to be the workspace root itself. */
  function RootEntry(): Entry { Entry(VERSION, "r", "a", Some(Path(false, [])), "") }

  lemma EmptyWorkspaceIsLawful()
    ensures Lawful(EmptyWorkspace())
  {
    var host := EmptyWorkspace();
    forall p: Abs, s: Abs ensures Follows(host, p, s) { assert p + s == ["src"] ==> p == [] || p == ["src"]; }
  }

  /** The dry run is blocked there, while the planner would add the project. */
  lemma EmptyRootDiffers()
    ensures Lawful(EmptyWorkspace()) && EntryOk(RootEntry())
    ensures
      var known := Knowledge(EmptyWorkspace(), [RootEntry()], []);
      && Clear(EmptyWorkspace(), ["src"], known, Start(known), RootEntry())
      && RootTaken(EmptyWorkspace(), ["src"], known, RootEntry())
      && DryKind(EmptyWorkspace(), ["src"], known, Start(known), RootEntry()) == DriftConflicting
  {
    EmptyWorkspaceIsLawful();
    var host, e := EmptyWorkspace(), RootEntry();
    assert ["src"] + Below(e) == ["src"] && ["src"][..1] == ["src"] && ["src"][1..] == [];
    assert Nearest(host, ["src"], 1) == Some(1);
    assert Canonical(host, ["src"]) == ["src"];
  }
}
