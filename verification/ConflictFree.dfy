/** What a plan without conflicts guarantees. */
module ConflictFree {
  import opened Paths
  import opened Hosts
  import opened Projects
  import opened Manifest
  import opened ImportStages
  import opened ApplyImport
  import opened PlanImport

  ghost predicate ClearEntry(host: Host, root: Abs, known: Known, entries: seq<Entry>, i: nat)
    requires AllOk(entries) && KnownOk(known) && i < |entries|
  {
    Clear(host, root, known, After(host, root, known, entries[..i]), entries[i])
  }

  ghost predicate AllClear(host: Host, root: Abs, known: Known, entries: seq<Entry>)
    requires AllOk(entries) && KnownOk(known)
  {
    forall i {:trigger ClearEntry(host, root, known, entries, i)} :: 0 <= i < |entries| ==>
      ClearEntry(host, root, known, entries, i)
  }

  predicate NoConflict(changes: seq<Change>) { forall c <- changes :: c.action != Conflict }

  lemma PlannedChange(host: Host, root: Abs, known: Known, entries: seq<Entry>, changes: seq<Change>, i: nat)
    requires AllOk(entries) && KnownOk(known) && i < |entries| && PlanFor(host, root, known, entries, changes)
    ensures |changes| == |entries|
    ensures changes[i].action != Conflict ==>
        ClearEntry(host, root, known, entries, i) && changes[i] == ChangeOf(host, root, known, entries[i])
    ensures ClearEntry(host, root, known, entries, i) ==> changes[i] == ChangeOf(host, root, known, entries[i])
  {
    PlanPrefix(host, root, known, entries, changes, i + 1);
    assert entries[..i + 1][..i] == entries[..i];
  }

  /** A plan without conflicts: every entry is clear, and has the change that goes with it. */
  lemma ConflictFreeIsClear(host: Host, root: Abs, known: Known, entries: seq<Entry>, changes: seq<Change>)
    requires AllOk(entries) && KnownOk(known) && PlanFor(host, root, known, entries, changes) && NoConflict(changes)
    ensures AllClear(host, root, known, entries) && |changes| == |entries|
    ensures forall i :: 0 <= i < |entries| ==> changes[i] == ChangeOf(host, root, known, entries[i])
  {
    forall i | 0 <= i < |entries|
      ensures ClearEntry(host, root, known, entries, i)
      ensures |changes| == |entries| && changes[i] == ChangeOf(host, root, known, entries[i])
    {
      PlannedChange(host, root, known, entries, changes, i);
      assert changes[i] in changes;
    }
  }

  // ----- the state only grows -----

  ghost predicate Grows(s: PlanState, t: PlanState) {
    && (forall alias <- s.aliasOwner :: alias in t.aliasOwner && t.aliasOwner[alias] == s.aliasOwner[alias])
    && (forall path <- s.seenPaths :: path in t.seenPaths && t.seenPaths[path] == s.seenPaths[path])
    && s.identities <= t.identities
  }

  lemma StepGrows(host: Host, root: Abs, known: Known, s: PlanState, e: Entry)
    requires EntryOk(e) && KnownOk(known)
    ensures Grows(s, Step(host, root, known, s, e).0)
  {
  }

  lemma {:induction false} AfterGrows(host: Host, root: Abs, known: Known, entries: seq<Entry>, m: nat)
    requires AllOk(entries) && KnownOk(known) && m <= |entries|
    ensures Grows(After(host, root, known, entries[..m]), After(host, root, known, entries))
  {
    if m == |entries| {
      assert entries[..m] == entries;
    } else {
      var n := |entries| - 1;
      AfterGrows(host, root, known, entries[..n], m);
      assert entries[..n][..m] == entries[..m];
      StepGrows(host, root, known, After(host, root, known, entries[..n]), entries[n]);
      GrowsFurther(After(host, root, known, entries[..m]), After(host, root, known, entries[..n]),
          Step(host, root, known, After(host, root, known, entries[..n]), entries[n]).0);
    }
  }

  lemma GrowsFurther(s: PlanState, t: PlanState, u: PlanState)
    requires Grows(s, t) && Grows(t, u)
    ensures Grows(s, u)
  {
  }

  /** What a clear entry leaves in the state. */
  lemma ClearRecords(host: Host, root: Abs, known: Known, entries: seq<Entry>, i: nat, n: nat)
    requires AllOk(entries) && KnownOk(known) && i < n <= |entries| && ClearEntry(host, root, known, entries, i)
    ensures
      var s := After(host, root, known, entries[..n]);
      var e := entries[i];
      && e.alias in s.aliasOwner && s.aliasOwner[e.alias] == e.identity
      && DesiredPath(host, root, e) in s.seenPaths && s.seenPaths[DesiredPath(host, root, e)] == e.identity
      && e.identity in s.identities
  {
    assert entries[..i + 1][..i] == entries[..i];
    AfterGrows(host, root, known, entries[..n], i + 1);
    assert entries[..n][..i + 1] == entries[..i + 1];
  }

  // All that is in the state was known before, or comes from an entry.

  lemma {:induction false} AliasFrom(host: Host, root: Abs, known: Known, entries: seq<Entry>, alias: string)
    returns (i: nat)
    requires AllOk(entries) && KnownOk(known) && alias in After(host, root, known, entries).aliasOwner
    ensures
      var owner := After(host, root, known, entries).aliasOwner[alias];
      || (i < |entries| && entries[i].alias == alias && entries[i].identity == owner)
      || (alias in known.aliasOwner && known.aliasOwner[alias] == owner)
  {
    if entries == [] { return 0; }
    i := |entries| - 1;
    if entries[i].alias != alias || entries[i].identity != After(host, root, known, entries).aliasOwner[alias] {
      i := AliasFrom(host, root, known, entries[..i], alias);
    }
  }

  lemma {:induction false} PathFrom(host: Host, root: Abs, known: Known, entries: seq<Entry>, path: Abs)
    returns (i: nat)
    requires AllOk(entries) && KnownOk(known) && path in After(host, root, known, entries).seenPaths
    ensures
      var owner := After(host, root, known, entries).seenPaths[path];
      || (i < |entries| && DesiredPath(host, root, entries[i]) == path && entries[i].identity == owner)
      || (path in known.seenPaths && known.seenPaths[path] == owner)
  {
    if entries == [] { return 0; }
    i := |entries| - 1;
    var owner := After(host, root, known, entries).seenPaths[path];
    if DesiredPath(host, root, entries[i]) != path || entries[i].identity != owner {
      i := PathFrom(host, root, known, entries[..i], path);
    }
  }

  lemma {:induction false} IdentityFrom(host: Host, root: Abs, known: Known, entries: seq<Entry>, identity: string)
    returns (i: nat)
    requires AllOk(entries) && KnownOk(known) && identity in After(host, root, known, entries).identities
    ensures i < |entries| && entries[i].identity == identity
  {
    i := |entries| - 1;
    if entries[i].identity != identity { i := IdentityFrom(host, root, known, entries[..i], identity); }
  }

  /** Two entries of a plan without conflicts differ in identity, alias and place, and neither place is inside the
      other. */
  lemma EntriesApart(host: Host, root: Abs, known: Known, entries: seq<Entry>, i: nat, j: nat)
    requires AllOk(entries) && KnownOk(known) && AllClear(host, root, known, entries) && i < j < |entries|
    ensures entries[i].identity != entries[j].identity && entries[i].alias != entries[j].alias
    ensures !Overlaps(DesiredPath(host, root, entries[i]), DesiredPath(host, root, entries[j]))
  {
    assert ClearEntry(host, root, known, entries, i) && ClearEntry(host, root, known, entries, j);
    ClearRecords(host, root, known, entries, i, j);
    var a, b := DesiredPath(host, root, entries[i]), DesiredPath(host, root, entries[j]);
    OverlapsIsComparable(a, b);
    WithinIsProperPrefix(a, b);
    WithinIsProperPrefix(b, a);
  }

  lemma ClearOfSeen(host: Host, root: Abs, known: Known, entries: seq<Entry>, i: nat, path: Abs)
    requires AllOk(entries) && KnownOk(known) && AllClear(host, root, known, entries) && i < |entries|
    requires path in known.seenPaths && known.seenPaths[path] != entries[i].identity
    ensures !Overlaps(DesiredPath(host, root, entries[i]), path)
  {
    assert entries[..i][..0] == [];
    AfterGrows(host, root, known, entries[..i], 0);
    assert ClearEntry(host, root, known, entries, i);
    var desired := DesiredPath(host, root, entries[i]);
    OverlapsIsComparable(desired, path);
    WithinIsProperPrefix(desired, path);
    WithinIsProperPrefix(path, desired);
  }

  /** The layout of a plan without conflicts: every project's place is in the workspace, no place is inside another,
      nor inside or around a place that is kept by another project. */
  lemma LayoutIsApart(host: Host, root: Abs, entries: seq<Entry>, projects: seq<Project>, changes: seq<Change>)
    requires AllOk(entries) && AllComplete(projects) && IsPlan(host, root, entries, projects, changes)
        && NoConflict(changes)
    ensures forall i :: 0 <= i < |entries| ==>
        PathWithinRoot(host, Canonical(host, root), DesiredPath(host, root, entries[i]))
    ensures forall i, j :: 0 <= i < j < |entries| ==>
        !Overlaps(DesiredPath(host, root, entries[i]), DesiredPath(host, root, entries[j]))
    ensures
      var kept := Knowledge(host, entries, projects).seenPaths;
      forall i, path :: 0 <= i < |entries| && path in kept && kept[path] != entries[i].identity ==>
        !Overlaps(DesiredPath(host, root, entries[i]), path)
  {
    var known := Knowledge(host, entries, projects);
    ConflictFreeIsClear(host, root, known, entries, changes);
    forall i | 0 <= i < |entries|
      ensures PathWithinRoot(host, Canonical(host, root), DesiredPath(host, root, entries[i]))
    {
      assert ClearEntry(host, root, known, entries, i);
    }
    forall i, j | 0 <= i < j < |entries|
      ensures !Overlaps(DesiredPath(host, root, entries[i]), DesiredPath(host, root, entries[j]))
    {
      EntriesApart(host, root, known, entries, i, j);
    }
    forall i, path | 0 <= i < |entries| && path in known.seenPaths && known.seenPaths[path] != entries[i].identity
      ensures !Overlaps(DesiredPath(host, root, entries[i]), path)
    {
      ClearOfSeen(host, root, known, entries, i, path);
    }
  }

  /** Every place leads into the workspace. */
  lemma LayoutIsInside(host: Host, root: Abs, entries: seq<Entry>, projects: seq<Project>, changes: seq<Change>)
    requires AllOk(entries) && AllComplete(projects) && IsPlan(host, root, entries, projects, changes)
        && NoConflict(changes) && Lawful(host)
    ensures forall i :: 0 <= i < |entries| ==> Canonical(host, root) <= Canonical(host, root + Below(entries[i]))
  {
    var known := Knowledge(host, entries, projects);
    ConflictFreeIsClear(host, root, known, entries, changes);
    ClearIsInside(host, root, known, entries);
  }

  lemma ClearIsInside(host: Host, root: Abs, known: Known, entries: seq<Entry>)
    requires AllOk(entries) && KnownOk(known) && AllClear(host, root, known, entries) && Lawful(host)
    ensures forall i :: 0 <= i < |entries| ==> Canonical(host, root) <= Canonical(host, root + Below(entries[i]))
  {
    forall i | 0 <= i < |entries| ensures Canonical(host, root) <= Canonical(host, root + Below(entries[i])) {
      assert ClearEntry(host, root, known, entries, i);
      WithinRootIsPrefix(host, root, entries[i]);
    }
  }

  // ----- what the planner knows of the registry -----

  ghost predicate AllApart(projects: seq<Project>) {
    forall i, j {:trigger Apart(projects[i], projects[j])} :: 0 <= i < j < |projects| ==>
        Apart(projects[i], projects[j])
  }

  lemma ListedApart(projects: seq<Project>, rows: Rows)
    requires Sound(rows) && Lists(projects, rows)
    ensures AllApart(projects) && AllComplete(projects)
  {
  }

  ghost predicate Records(wanted: map<string, string>, known: Known, p: Project) {
    && p.remote in known.byIdentity && known.byIdentity[p.remote] == p
    && (!GivesUpAlias(wanted, p) ==> p.alias in known.aliasOwner && known.aliasOwner[p.alias] == p.remote)
  }

  lemma StillRecords(host: Host, wanted: map<string, string>, known: Known, p: Project, other: Project)
    requires Complete(other)
    requires p == other || (Records(wanted, known, p) && Apart(p, other))
    ensures Records(wanted, KnowOne(host, wanted, known, other), p)
  {
  }

  lemma {:induction false} KnowsRow(host: Host, wanted: map<string, string>, projects: seq<Project>, k: nat)
    requires AllComplete(projects) && AllApart(projects) && k < |projects|
    ensures Records(wanted, Know(host, wanted, projects), projects[k])
  {
    var n := |projects| - 1;
    if k < n {
      FewerApart(projects, n);
      KnowsRow(host, wanted, projects[..n], k);
      assert Apart(projects[k], projects[n]);
    }
    StillRecords(host, wanted, Know(host, wanted, projects[..n]), projects[k], projects[n]);
  }

  lemma FewerApart(projects: seq<Project>, n: nat)
    requires AllApart(projects) && n <= |projects|
    ensures AllApart(projects[..n])
  {
  }

  lemma {:induction false} KnownRow(host: Host, wanted: map<string, string>, projects: seq<Project>, identity: string)
    returns (k: nat)
    requires AllComplete(projects) && identity in Know(host, wanted, projects).byIdentity
    ensures k < |projects| && projects[k].remote == identity
    ensures Know(host, wanted, projects).byIdentity[identity] == projects[k]
  {
    k := |projects| - 1;
    if projects[k].remote != identity { k := KnownRow(host, wanted, projects[..k], identity); }
  }

  lemma {:induction false} WantedEntry(entries: seq<Entry>, identity: string) returns (i: nat)
    requires identity in WantedAliases(entries)
    ensures i < |entries| && entries[i].identity == identity && WantedAliases(entries)[identity] == entries[i].alias
  {
    var n := |entries| - 1;
    if identity in WantedAliases(entries[..n]) { i := WantedEntry(entries[..n], identity); } else { i := n; }
  }

  /** The known project of an identity is the row with that remote. */
  lemma KnownIsRow(host: Host, entries: seq<Entry>, projects: seq<Project>, rows: Rows, identity: string)
    requires Sound(rows) && Lists(projects, rows) && AllComplete(projects)
    ensures
      var known := Knowledge(host, entries, projects);
      && (identity in known.byIdentity ==>
            var p := known.byIdentity[identity]; p.id in rows && rows[p.id] == p && p.remote == identity)
      && (forall id <- rows :: rows[id].remote == identity ==>
            identity in known.byIdentity && known.byIdentity[identity] == rows[id])
  {
    ListedApart(projects, rows);
    var wanted := WantedAliases(entries);
    if identity in Know(host, wanted, projects).byIdentity {
      var k := KnownRow(host, wanted, projects, identity);
    }
    forall id | id in rows && rows[id].remote == identity
      ensures identity in Know(host, wanted, projects).byIdentity
          && Know(host, wanted, projects).byIdentity[identity] == rows[id]
    {
      var k :| 0 <= k < |projects| && projects[k] == rows[id];
      KnowsRow(host, wanted, projects, k);
    }
  }

  // ----- a plan without conflicts fits the registry -----

  predicate Unlike(c: Change, d: Change) { c.identity != d.identity && c.alias != d.alias }

  ghost predicate AllUnlike(changes: seq<Change>) {
    forall i, j {:trigger Unlike(changes[i], changes[j])} :: 0 <= i < j < |changes| ==> Unlike(changes[i], changes[j])
  }

  lemma {:induction false} SelectedUnlike(changes: seq<Change>, action: ChangeAction)
    requires AllUnlike(changes)
    ensures AllUnlike(OfAction(changes, action))
  {
    if changes != [] {
      var n := |changes| - 1;
      forall i, j | 0 <= i < j < n ensures Unlike(changes[..n][i], changes[..n][j]) {
        assert Unlike(changes[i], changes[j]);
      }
      SelectedUnlike(changes[..n], action);
      var earlier, all := OfAction(changes[..n], action), OfAction(changes, action);
      forall i, j | 0 <= i < j < |all| ensures Unlike(all[i], all[j]) {
        if j < |earlier| {
          assert Unlike(earlier[i], earlier[j]);
        } else {
          assert earlier[i] in changes[..n];
          var k :| 0 <= k < n && changes[k] == earlier[i];
          assert Unlike(changes[k], changes[n]);
        }
      }
    }
  }

  /** What is planned for an entry, in terms of the registry. */
  ghost predicate Serves(rows: Rows, e: Entry, c: Change) {
    && c.identity == e.identity && c.alias == e.alias && c.action != Conflict && Filled(c)
    && (c.action == Add ==> forall id <- rows :: rows[id].remote != e.identity)
    && (c.action != Add ==> c.projectID in rows && rows[c.projectID].remote == e.identity)
    && (c.action == Unchanged ==> rows[c.projectID].alias == e.alias)
  }

  lemma ChangeServes(host: Host, root: Abs, entries: seq<Entry>, projects: seq<Project>, rows: Rows, e: Entry)
    requires Sound(rows) && Lists(projects, rows) && AllComplete(projects) && EntryOk(e)
    ensures Serves(rows, e, ChangeOf(host, root, Knowledge(host, entries, projects), e))
  {
    KnownIsRow(host, entries, projects, rows, e.identity);
  }

  lemma ClearRespectsOwners(host: Host, root: Abs, known: Known, entries: seq<Entry>, i: nat)
    requires AllOk(entries) && KnownOk(known) && AllClear(host, root, known, entries) && i < |entries|
    ensures entries[i].alias in known.aliasOwner ==> known.aliasOwner[entries[i].alias] == entries[i].identity
  {
    assert entries[..i][..0] == [];
    AfterGrows(host, root, known, entries[..i], 0);
    assert ClearEntry(host, root, known, entries, i);
  }

  lemma SameRemoteSameRow(rows: Rows, i: nat, j: nat)
    requires Sound(rows) && i in rows && j in rows && rows[i].remote == rows[j].remote
    ensures i == j
  {
    assert i != j ==> Apart(rows[i], rows[j]);
  }

  /** Whoever has an alias that an entry wants gives it up. */
  lemma OwnerMakesWay(host: Host, root: Abs, entries: seq<Entry>, projects: seq<Project>, rows: Rows,
                      changes: seq<Change>, i: nat, id: nat)
    requires Sound(rows) && Lists(projects, rows) && AllOk(entries) && AllComplete(projects)
    requires IsPlan(host, root, entries, projects, changes) && NoConflict(changes)
    requires i < |entries| && id in rows && rows[id].alias == entries[i].alias && rows[id].remote != entries[i].identity
    ensures exists j :: 0 <= j < |changes| && changes[j].action == Update && changes[j].projectID == id
  {
    var known := Knowledge(host, entries, projects);
    var wanted := WantedAliases(entries);
    ConflictFreeIsClear(host, root, known, entries, changes);
    ListedApart(projects, rows);
    var k :| 0 <= k < |projects| && projects[k] == rows[id];
    KnowsRow(host, wanted, projects, k);
    ClearRespectsOwners(host, root, known, entries, i);
    if GivesUpAlias(wanted, rows[id]) {
      var j := WantedEntry(entries, rows[id].remote);
      assert changes[j] == ChangeOf(host, root, known, entries[j]);
      KnownIsRow(host, entries, projects, rows, rows[id].remote);
    }
  }

  lemma PlannedServes(host: Host, root: Abs, entries: seq<Entry>, projects: seq<Project>, rows: Rows,
                      changes: seq<Change>)
    requires Sound(rows) && Lists(projects, rows) && AllOk(entries) && AllComplete(projects)
    requires IsPlan(host, root, entries, projects, changes) && NoConflict(changes)
    ensures |changes| == |entries| && AllUnlike(changes)
    ensures forall i :: 0 <= i < |entries| ==> Serves(rows, entries[i], changes[i])
  {
    var known := Knowledge(host, entries, projects);
    ConflictFreeIsClear(host, root, known, entries, changes);
    forall i | 0 <= i < |entries| ensures Serves(rows, entries[i], changes[i]) {
      ChangeServes(host, root, entries, projects, rows, entries[i]);
    }
    forall i, j | 0 <= i < j < |changes| ensures Unlike(changes[i], changes[j]) {
      EntriesApart(host, root, known, entries, i, j);
      assert Serves(rows, entries[i], changes[i]) && Serves(rows, entries[j], changes[j]);
    }
  }

  /** Whoever has an alias that is wanted by an update or an add is itself updated. */
  lemma SelectedMakeWay(host: Host, root: Abs, entries: seq<Entry>, projects: seq<Project>, rows: Rows,
                        changes: seq<Change>, action: ChangeAction)
    requires Sound(rows) && Lists(projects, rows) && AllOk(entries) && AllComplete(projects)
    requires IsPlan(host, root, entries, projects, changes) && NoConflict(changes)
    requires action == Update || action == Add
    ensures MakeWay(rows, OfAction(changes, Update), Wanted(OfAction(changes, action)))
  {
    PlannedServes(host, root, entries, projects, rows, changes);
    var updates := OfAction(changes, Update);
    forall id | id in rows && rows[id].alias in Wanted(OfAction(changes, action)) ensures Updated(updates, id) {
      var c :| c in OfAction(changes, action) && c.alias == rows[id].alias;
      var i :| 0 <= i < |changes| && changes[i] == c;
      assert Serves(rows, entries[i], changes[i]);
      if rows[id].remote != entries[i].identity {
        OwnerMakesWay(host, root, entries, projects, rows, changes, i, id);
        var j :| 0 <= j < |changes| && changes[j].action == Update && changes[j].projectID == id;
        SelectedIsUpdated(changes, changes[j]);
      } else if c.action == Update {
        SameRemoteSameRow(rows, c.projectID, id);
        SelectedIsUpdated(changes, c);
      }
    }
  }

  lemma SelectedIsUpdated(changes: seq<Change>, c: Change)
    requires c in changes && c.action == Update
    ensures Updated(OfAction(changes, Update), c.projectID)
  {
    var updates := OfAction(changes, Update);
    var k :| 0 <= k < |updates| && updates[k] == c;
    IsUpdated(updates, k);
  }

  lemma SelectedDiffer(rows: Rows, changes: seq<Change>)
    requires AllUnlike(changes)
    requires forall c <- changes :: c.action == Update ==> c.projectID in rows && rows[c.projectID].remote == c.identity
    ensures AllDiffer(OfAction(changes, Update))
  {
    SelectedUnlike(changes, Update);
    var updates := OfAction(changes, Update);
    forall i, j | 0 <= i < j < |updates| ensures Differ(updates[i], updates[j]) {
      assert Unlike(updates[i], updates[j]);
      assert updates[i] in updates && updates[j] in updates;
    }
  }

  /** A plan without conflicts fits the registry it was made for: applying it cannot trip a uniqueness check. */
  lemma ConflictFreeFits(host: Host, root: Abs, entries: seq<Entry>, projects: seq<Project>, rows: Rows,
                         changes: seq<Change>)
    requires Sound(rows) && Lists(projects, rows) && AllOk(entries) && AllComplete(projects)
    requires IsPlan(host, root, entries, projects, changes) && NoConflict(changes)
    ensures PlanFits(rows, changes)
  {
    PlannedServes(host, root, entries, projects, rows, changes);
    forall c | c in changes ensures exists e :: Serves(rows, e, c) {
      var i :| 0 <= i < |changes| && changes[i] == c;
      assert Serves(rows, entries[i], c);
    }
    SelectedDiffer(rows, changes);
    SelectedMakeWay(host, root, entries, projects, rows, changes, Update);
    SelectedMakeWay(host, root, entries, projects, rows, changes, Add);
    SelectedUpdatesFit(rows, changes);
    SelectedAddsFit(rows, changes);
  }

  lemma SelectedUpdatesFit(rows: Rows, changes: seq<Change>)
    requires forall c <- changes :: exists e :: Serves(rows, e, c)
    requires AllDiffer(OfAction(changes, Update))
    requires MakeWay(rows, OfAction(changes, Update), Wanted(OfAction(changes, Update)))
    ensures UpdatesFit(rows, OfAction(changes, Update))
  {
  }

  lemma SelectedAddsFit(rows: Rows, changes: seq<Change>)
    requires forall c <- changes :: exists e :: Serves(rows, e, c)
    requires AllUnlike(changes)
    requires MakeWay(rows, OfAction(changes, Update), Wanted(OfAction(changes, Add)))
    ensures AddsFit(rows, OfAction(changes, Update), OfAction(changes, Add))
  {
    var updates, adds := OfAction(changes, Update), OfAction(changes, Add);
    forall a | a in adds ensures Filled(a) && forall id <- rows :: rows[id].remote != a.identity {
      var e :| Serves(rows, e, a);
    }
    SelectedUnlike(changes, Add);
    forall i, j | 0 <= i < j < |adds| ensures adds[i].identity != adds[j].identity && adds[i].alias != adds[j].alias {
      assert Unlike(adds[i], adds[j]);
    }
    SelectedApart(changes);
  }

  lemma SelectedApart(changes: seq<Change>)
    requires AllUnlike(changes)
    ensures Wanted(OfAction(changes, Add)) !! Wanted(OfAction(changes, Update))
  {
    forall a, u | a in OfAction(changes, Add) && u in OfAction(changes, Update) ensures a.alias != u.alias {
      var i :| 0 <= i < |changes| && changes[i] == a;
      var j :| 0 <= j < |changes| && changes[j] == u;
      if i < j { assert Unlike(changes[i], changes[j]); } else { assert Unlike(changes[j], changes[i]); }
    }
  }
}
