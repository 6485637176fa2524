/** Planning the same manifest again after it was applied. */
module Replan {
  import opened Paths
  import opened Hosts
  import opened Projects
  import opened Manifest
  import opened ImportStages
  import opened ApplyImport
  import opened PlanImport
  import opened ConflictFree
  import opened DryRunRefines

  // ----- the paths the planner starts from -----

  /** The places a row keeps other projects out of. */
  ghost predicate Keeps(host: Host, wanted: map<string, string>, p: Project, path: Abs)
    requires Complete(p)
  {
    || ((p.remote !in wanted || host.lstat(p.localPath.value) != Missing)
        && Canonical(host, p.localPath.value) == path)
    || (p.remote !in wanted && Canonical(host, CanonicalOf(p)) == path)
  }

  lemma SeenOne(host: Host, wanted: map<string, string>, known: Known, p: Project, path: Abs)
    requires Complete(p)
    ensures
      var seen := KnowOne(host, wanted, known, p).seenPaths;
      if Keeps(host, wanted, p, path) then path in seen && seen[path] == p.remote
      else if path in known.seenPaths then path in seen && seen[path] == known.seenPaths[path]
      else path !in seen
  {
  }

  lemma {:induction false} SeenFrom(host: Host, wanted: map<string, string>, projects: seq<Project>, path: Abs)
    returns (k: nat)
    requires AllComplete(projects) && path in Know(host, wanted, projects).seenPaths
    ensures k < |projects| && projects[k].remote == Know(host, wanted, projects).seenPaths[path]
    ensures Keeps(host, wanted, projects[k], path)
  {
    k := |projects| - 1;
    SeenOne(host, wanted, Know(host, wanted, projects[..k]), projects[k], path);
    if !Keeps(host, wanted, projects[k], path) { k := SeenFrom(host, wanted, projects[..k], path); }
  }

  /** Two projects that have no place in common. */
  predicate Disjoint(host: Host, p: Project, q: Project)
    requires Complete(p) && Complete(q)
  {
    && Canonical(host, p.localPath.value) != Canonical(host, q.localPath.value)
    && Canonical(host, p.localPath.value) != Canonical(host, CanonicalOf(q))
    && Canonical(host, CanonicalOf(p)) != Canonical(host, q.localPath.value)
    && Canonical(host, CanonicalOf(p)) != Canonical(host, CanonicalOf(q))
  }

  ghost predicate NoSharedPaths(host: Host, rows: Rows)
    requires Sound(rows)
  {
    forall i, j {:trigger Disjoint(host, rows[i], rows[j])} :: i in rows && j in rows && i != j ==>
      Disjoint(host, rows[i], rows[j])
  }

  ghost predicate AllDisjoint(host: Host, projects: seq<Project>)
    requires AllComplete(projects)
  {
    forall i, j {:trigger Disjoint(host, projects[i], projects[j])} :: 0 <= i < j < |projects| ==>
      Disjoint(host, projects[i], projects[j])
  }

  lemma {:induction false} SeenHas(host: Host, wanted: map<string, string>, projects: seq<Project>, k: nat, path: Abs)
    requires AllComplete(projects) && AllDisjoint(host, projects) && k < |projects|
    requires Keeps(host, wanted, projects[k], path)
    ensures
      var seen := Know(host, wanted, projects).seenPaths;
      path in seen && seen[path] == projects[k].remote
  {
    var n := |projects| - 1;
    SeenOne(host, wanted, Know(host, wanted, projects[..n]), projects[n], path);
    if k < n {
      FewerDisjoint(host, projects, n);
      SeenHas(host, wanted, projects[..n], k, path);
      assert Disjoint(host, projects[k], projects[n]);
      NotBoth(host, wanted, projects[k], projects[n], path);
    }
  }

  lemma NotBoth(host: Host, wanted: map<string, string>, p: Project, q: Project, path: Abs)
    requires Complete(p) && Complete(q) && (Disjoint(host, p, q) || Disjoint(host, q, p))
    ensures !(Keeps(host, wanted, p, path) && Keeps(host, wanted, q, path))
  {
  }

  lemma FewerDisjoint(host: Host, projects: seq<Project>, n: nat)
    requires AllComplete(projects) && AllDisjoint(host, projects) && n <= |projects|
    ensures AllDisjoint(host, projects[..n])
  {
  }

  /** A path kept by another project's row is not a desired one, nor inside it, nor the other way round. */
  lemma KeptIsApart(host: Host, root: Abs, entries: seq<Entry>, projects: seq<Project>,
      rows: Rows, i: nat, id: nat, path: Abs)
    requires Sound(rows) && Lists(projects, rows) && NoSharedPaths(host, rows) && AllOk(entries)
        && AllComplete(projects)
    requires AllClear(host, root, Knowledge(host, entries, projects), entries) && i < |entries| && id in rows
    requires rows[id].remote != entries[i].identity && Keeps(host, WantedAliases(entries), rows[id], path)
    ensures !Overlaps(DesiredPath(host, root, entries[i]), path)
  {
    var known := Knowledge(host, entries, projects);
    ListedDisjoint(host, projects, rows);
    var k :| 0 <= k < |projects| && projects[k] == rows[id];
    SeenHas(host, WantedAliases(entries), projects, k, path);
    ClearOfSeen(host, root, known, entries, i, path);
  }

  lemma ListedDisjoint(host: Host, projects: seq<Project>, rows: Rows)
    requires Sound(rows) && Lists(projects, rows) && NoSharedPaths(host, rows) && AllComplete(projects)
    ensures AllDisjoint(host, projects)
  {
  }

  // ----- the rows after the import -----

  /** The row of an entry's project after the import. */
  ghost predicate Settled(host: Host, root: Abs, e: Entry, p: Project)
    requires EntryOk(e)
  {
    && Complete(p) && p.remote == e.identity && p.alias == e.alias && p.source == CANONICAL
    && AtDesiredPath(host, root, e, p) && (e.hint != "" ==> p.cloneURL == e.hint)
  }

  /** A row whose local path a second import still changes: it was a local-only one at the desired place, its
      directory was missing, and its path was spelled differently. */
  predicate Late(host: Host, root: Abs, known: Known, e: Entry)
    requires EntryOk(e) && KnownOk(known)
  {
    && e.identity in known.byIdentity
    && var p := known.byIdentity[e.identity];
    && p.source == LOCAL_ONLY && p.localPath == p.canonicalPath && host.lstat(p.localPath.value) == Missing
    && AtDesiredPath(host, root, e, p) && p.localPath.value != root + Below(e)
  }

  lemma MovedIsAtDesired(host: Host, root: Abs, e: Entry)
    requires Lawful(host) && EntryOk(e)
    ensures Canonical(host, root + Below(e)) == DesiredPath(host, root, e)
  {
    CanonicalBelow(host, root, Below(e));
  }

  /** The content an import gives a project's row settles it, and a second import leaves it alone unless it is late. */
  lemma AppliedIsSettled(host: Host, root: Abs, known: Known, e: Entry, c: Change, id: nat, p: Project)
    requires Lawful(host) && EntryOk(e) && KnownOk(known) && c == ChangeOf(host, root, known, e) && id > 0
    requires forall identity <- known.byIdentity :: known.byIdentity[identity].remote == identity
    requires p == if c.action == Unchanged then known.byIdentity[e.identity] else FromChange(c).(id := id)
    requires c.action == Update ==> id == c.projectID
    ensures Settled(host, root, e, p)
    ensures p == if e.identity in known.byIdentity then Renewed(host, root, e, known.byIdentity[e.identity])
        else NewRow(id, root, e)
    ensures UpdateFor(host, root, e, p).action == if Late(host, root, known, e) then Update else Unchanged
  {
    MovedIsAtDesired(host, root, e);
    if e.identity in known.byIdentity { UpdateRenews(host, root, e, known.byIdentity[e.identity]); }
  }

  // ----- an import that went through -----

  datatype Run = Run(host: Host, root: Abs, entries: seq<Entry>, projects: seq<Project>, rows: Rows,
                     changes: seq<Change>, added: seq<Project>, after: Rows)

  /** The plan had no conflicts and was applied to the rows it was made for. */
  ghost predicate WentThrough(r: Run) {
    && Sound(r.rows) && Lists(r.projects, r.rows) && AllComplete(r.projects) && AllOk(r.entries)
    && IsPlan(r.host, r.root, r.entries, r.projects, r.changes) && NoConflict(r.changes)
    && Applied(r.after, r.rows, r.changes, r.added) && Sound(r.after)
  }

  function KnownOf(r: Run): (known: Known)
    requires AllComplete(r.projects)
    ensures KnownOk(known)
  {
    Knowledge(r.host, r.entries, r.projects)
  }

  /** The index of a selected change among all the changes. */
  lemma SelectedAt(changes: seq<Change>, action: ChangeAction, k: nat) returns (i: nat)
    requires k < |OfAction(changes, action)|
    ensures i < |changes| && changes[i] == OfAction(changes, action)[k] && changes[i].action == action
  {
    var c := OfAction(changes, action)[k];
    assert c in OfAction(changes, action);
    i :| 0 <= i < |changes| && changes[i] == c;
  }

  lemma {:induction false} OldIsThere(rows: Rows, adds: seq<Change>, added: seq<Project>, id: nat)
    requires AddedFor(rows, adds, added) && id in rows
    ensures id in WithAdded(rows, added) && WithAdded(rows, added)[id] == rows[id]
  {
    if added != [] { OldIsThere(rows, adds, added[..|added| - 1], id); }
  }

  /** The row an entry's project ends up with. */
  ghost predicate IsRowOf(r: Run, i: nat, id: nat)
    requires AllComplete(r.projects) && i < |r.entries| && |r.changes| == |r.entries|
  {
    var c := r.changes[i];
    var known := KnownOf(r);
    && id in r.after && id > 0 && (c.action == Unchanged ==> r.entries[i].identity in known.byIdentity)
    && r.after[id] == if c.action == Unchanged then known.byIdentity[r.entries[i].identity]
        else FromChange(c).(id := id)
  }

  lemma AddedRow(r: Run, i: nat) returns (id: nat)
    requires WentThrough(r) && i < |r.changes| && |r.changes| == |r.entries| && r.changes[i].action == Add
    ensures IsRowOf(r, i, id) && id !in r.rows
  {
    var adds := OfAction(r.changes, Add);
    assert r.changes[i] in adds;
    var k :| 0 <= k < |adds| && adds[k] == r.changes[i];
    AddedIsThere(Overlay(r.rows, OfAction(r.changes, Update)), adds, r.added, k);
    id := r.added[k].id;
  }

  lemma FinalRow(updates: seq<Change>, k: nat)
    requires AllDiffer(updates) && k < |updates|
    ensures
      var finals := Finals(updates, |updates|);
      updates[k].projectID in finals && finals[updates[k].projectID] == FromChange(updates[k])
  {
    FinalsHave(updates, |updates|, k);
    var j := FinalsAre(updates, |updates|, updates[k].projectID);
    OtherIds(updates, k);
  }

  lemma UpdatedRow(r: Run, i: nat)
    requires WentThrough(r) && i < |r.changes| && |r.changes| == |r.entries| && r.changes[i].action == Update
    ensures IsRowOf(r, i, r.changes[i].projectID)
  {
    var updates := OfAction(r.changes, Update);
    ConflictFreeFits(r.host, r.root, r.entries, r.projects, r.rows, r.changes);
    assert r.changes[i] in updates;
    var k :| 0 <= k < |updates| && updates[k] == r.changes[i];
    FinalRow(updates, k);
    assert updates[k].projectID in r.rows;
    OldIsThere(Overlay(r.rows, updates), OfAction(r.changes, Add), r.added, updates[k].projectID);
  }

  lemma UnchangedRow(r: Run, i: nat)
    requires WentThrough(r) && i < |r.changes| && |r.changes| == |r.entries| && r.changes[i].action == Unchanged
    ensures IsRowOf(r, i, r.changes[i].projectID)
  {
    var updates := OfAction(r.changes, Update);
    var id := r.changes[i].projectID;
    PlannedServes(r.host, r.root, r.entries, r.projects, r.rows, r.changes);
    ConflictFreeIsClear(r.host, r.root, KnownOf(r), r.entries, r.changes);
    KnownIsRow(r.host, r.entries, r.projects, r.rows, r.entries[i].identity);
    assert Serves(r.rows, r.entries[i], r.changes[i]);
    if id in Finals(updates, |updates|) {
      var k := FinalsAre(updates, |updates|, id);
      var j := SelectedAt(r.changes, Update, k);
      assert Serves(r.rows, r.entries[j], r.changes[j]);
      SameIdentitySameChange(r.changes, i, j);
    }
    OldIsThere(Overlay(r.rows, updates), OfAction(r.changes, Add), r.added, id);
  }

  lemma SameIdentitySameChange(changes: seq<Change>, i: nat, j: nat)
    requires AllUnlike(changes) && i < |changes| && j < |changes| && changes[i].identity == changes[j].identity
    ensures i == j
  {
    assert i < j ==> Unlike(changes[i], changes[j]);
    assert j < i ==> Unlike(changes[j], changes[i]);
  }

  /** Every entry's project has a row after the import, and it is settled. */
  lemma EntryHasRow(r: Run, i: nat) returns (id: nat)
    requires WentThrough(r) && Lawful(r.host) && i < |r.entries|
    ensures id in r.after && Settled(r.host, r.root, r.entries[i], r.after[id])
    ensures
      var e := r.entries[i];
      if e.identity in KnownOf(r).byIdentity then
        r.after[id] == Renewed(r.host, r.root, e, KnownOf(r).byIdentity[e.identity])
      else id !in r.rows && r.after[id] == NewRow(id, r.root, e)
    ensures UpdateFor(r.host, r.root, r.entries[i], r.after[id]).action
         == if Late(r.host, r.root, KnownOf(r), r.entries[i]) then Update else Unchanged
  {
    ConflictFreeIsClear(r.host, r.root, KnownOf(r), r.entries, r.changes);
    var c := r.changes[i];
    assert c in r.changes;
    if c.action == Add {
      id := AddedRow(r, i);
    } else {
      id := c.projectID;
      if c.action == Update { UpdatedRow(r, i); } else { UnchangedRow(r, i); }
    }
    KnownRemotes(r);
    AppliedIsSettled(r.host, r.root, KnownOf(r), r.entries[i], c, id, r.after[id]);
  }

  lemma KnownRemotes(r: Run)
    requires WentThrough(r)
    ensures forall identity <- KnownOf(r).byIdentity :: KnownOf(r).byIdentity[identity].remote == identity
  {
    forall identity | identity in KnownOf(r).byIdentity ensures KnownOf(r).byIdentity[identity].remote == identity {
      var k := KnownRow(r.host, WantedAliases(r.entries), r.projects, identity);
    }
  }

  // ----- what the rows keep other projects out of, after the import -----

  /** A row's local path is the desired one of its project's entry, or what it was before. */
  ghost predicate FromEntry(r: Run, p: Project, i: nat)
    requires AllOk(r.entries)
  {
    i < |r.entries| && p.remote == r.entries[i].identity && p.localPath == Some(r.root + Below(r.entries[i]))
  }

  ghost predicate FromRow(r: Run, p: Project, id: nat) {
    && id in r.rows && r.rows[id].remote == p.remote && r.rows[id].localPath == p.localPath
    && (p.remote !in WantedAliases(r.entries) ==> p == r.rows[id])
  }

  lemma {:induction false} WantedHas(entries: seq<Entry>, i: nat)
    requires i < |entries|
    ensures entries[i].identity in WantedAliases(entries)
  {
    if i < |entries| - 1 { WantedHas(entries[..|entries| - 1], i); }
  }

  lemma AddedFrom(r: Run, id: nat) returns (i: nat)
    requires WentThrough(r) && id in r.after && id !in r.rows
    ensures FromEntry(r, r.after[id], i)
  {
    var updates, adds := OfAction(r.changes, Update), OfAction(r.changes, Add);
    var k := AddedIndex(Overlay(r.rows, updates), r.added, id);
    i := SelectedAt(r.changes, Add, k);
    ConflictFreeIsClear(r.host, r.root, KnownOf(r), r.entries, r.changes);
  }

  lemma OldFrom(r: Run, id: nat) returns (i: nat)
    requires WentThrough(r) && id in r.after && id in r.rows
    ensures FromEntry(r, r.after[id], i) || FromRow(r, r.after[id], id)
  {
    var updates := OfAction(r.changes, Update);
    OldIsThere(Overlay(r.rows, updates), OfAction(r.changes, Add), r.added, id);
    i := 0;
    if id in Finals(updates, |updates|) {
      var k := FinalsAre(updates, |updates|, id);
      i := SelectedAt(r.changes, Update, k);
      ConflictFreeIsClear(r.host, r.root, KnownOf(r), r.entries, r.changes);
      KnownIsRow(r.host, r.entries, r.projects, r.rows, r.entries[i].identity);
      WantedHas(r.entries, i);
    }
  }

  /** A row that was not to be imported is as it was. */
  lemma UnwantedStays(r: Run, id: nat)
    requires WentThrough(r) && id in r.after && r.after[id].remote !in WantedAliases(r.entries)
    ensures id in r.rows && r.after[id] == r.rows[id]
  {
    var i;
    if id in r.rows { i := OldFrom(r, id); } else { i := AddedFrom(r, id); }
    if FromEntry(r, r.after[id], i) { WantedHas(r.entries, i); }
  }

  /** The rows of other projects than the entries' are as they were. */
  ghost predicate OthersStay(after: Rows, before: Rows, entries: seq<Entry>) {
    && (forall id <- before :: before[id].remote !in WantedAliases(entries) ==>
          id in after && after[id] == before[id])
    && (forall id <- after :: after[id].remote !in WantedAliases(entries) ==> id in before && after[id] == before[id])
  }

  lemma ImportLeavesOthers(r: Run)
    requires WentThrough(r)
    ensures OthersStay(r.after, r.rows, r.entries)
  {
    forall id | id in r.after && r.after[id].remote !in WantedAliases(r.entries)
      ensures id in r.rows && r.after[id] == r.rows[id]
    {
      UnwantedStays(r, id);
    }
    forall id | id in r.rows && r.rows[id].remote !in WantedAliases(r.entries)
      ensures id in r.after && r.after[id] == r.rows[id]
    {
      var updates := OfAction(r.changes, Update);
      OldIsThere(Overlay(r.rows, updates), OfAction(r.changes, Add), r.added, id);
      if id in Finals(updates, |updates|) {
        var k := FinalsAre(updates, |updates|, id);
        var i := SelectedAt(r.changes, Update, k);
        ConflictFreeIsClear(r.host, r.root, KnownOf(r), r.entries, r.changes);
        KnownIsRow(r.host, r.entries, r.projects, r.rows, r.entries[i].identity);
        WantedHas(r.entries, i);
      }
    }
  }

  /** The row of an entry's project after the import: the one it had, renewed, or a new one. */
  ghost predicate HasItsRow(host: Host, root: Abs, e: Entry, before: Rows, after: Rows)
    requires EntryOk(e) && Sound(before)
  {
    if exists id <- before :: before[id].remote == e.identity then
      forall id <- before :: before[id].remote == e.identity ==>
        id in after && after[id] == Renewed(host, root, e, before[id])
    else exists id <- after :: id !in before && after[id] == NewRow(id, root, e)
  }

  /** The whole table after an import: each entry's project has its row, and all other rows are as they were. */
  ghost predicate RowsRenewed(host: Host, root: Abs, entries: seq<Entry>, before: Rows, after: Rows)
    requires AllOk(entries) && Sound(before)
  {
    (forall e <- entries :: HasItsRow(host, root, e, before, after)) && OthersStay(after, before, entries)
  }

  lemma ImportRenews(r: Run)
    requires WentThrough(r) && Lawful(r.host)
    ensures RowsRenewed(r.host, r.root, r.entries, r.rows, r.after)
  {
    ImportLeavesOthers(r);
    forall e | e in r.entries ensures HasItsRow(r.host, r.root, e, r.rows, r.after) {
      var i :| 0 <= i < |r.entries| && r.entries[i] == e;
      EntryIsRenewed(r, i);
    }
  }

  lemma EntryIsRenewed(r: Run, i: nat)
    requires WentThrough(r) && Lawful(r.host) && i < |r.entries|
    ensures HasItsRow(r.host, r.root, r.entries[i], r.rows, r.after)
  {
    var e := r.entries[i];
    var id := EntryHasRow(r, i);
    KnownIsRow(r.host, r.entries, r.projects, r.rows, e.identity);
  }

  /** No row of another project keeps an entry's project out of its place. */
  lemma KeptIsStillApart(r: Run, i: nat, id: nat, path: Abs)
    requires WentThrough(r) && Lawful(r.host) && NoSharedPaths(r.host, r.rows) && i < |r.entries| && id in r.after
    requires r.after[id].remote != r.entries[i].identity && Keeps(r.host, WantedAliases(r.entries), r.after[id], path)
    ensures !Overlaps(DesiredPath(r.host, r.root, r.entries[i]), path)
  {
    ConflictFreeIsClear(r.host, r.root, KnownOf(r), r.entries, r.changes);
    var j;
    if id in r.rows { j := OldFrom(r, id); } else { j := AddedFrom(r, id); }
    if FromEntry(r, r.after[id], j) {
      WantedHas(r.entries, j);
      MovedIsAtDesired(r.host, r.root, r.entries[j]);
      DesiredApart(r, i, j);
    } else {
      KeptIsApart(r.host, r.root, r.entries, r.projects, r.rows, i, id, path);
    }
  }

  lemma DesiredApart(r: Run, i: nat, j: nat)
    requires WentThrough(r) && i < |r.entries| && j < |r.entries| && r.entries[i].identity != r.entries[j].identity
    ensures !Overlaps(DesiredPath(r.host, r.root, r.entries[i]), DesiredPath(r.host, r.root, r.entries[j]))
  {
    ConflictFreeIsClear(r.host, r.root, KnownOf(r), r.entries, r.changes);
    var a, b := DesiredPath(r.host, r.root, r.entries[i]), DesiredPath(r.host, r.root, r.entries[j]);
    if i < j {
      EntriesApart(r.host, r.root, KnownOf(r), r.entries, i, j);
    } else {
      EntriesApart(r.host, r.root, KnownOf(r), r.entries, j, i);
      OverlapsIsComparable(a, b);
      OverlapsIsComparable(b, a);
    }
  }

  // ----- planning again -----

  lemma {:induction false} OwnerFrom(host: Host, wanted: map<string, string>, projects: seq<Project>, alias: string)
    returns (k: nat)
    requires AllComplete(projects) && alias in Know(host, wanted, projects).aliasOwner
    ensures k < |projects| && projects[k].alias == alias
    ensures projects[k].remote == Know(host, wanted, projects).aliasOwner[alias]
  {
    k := |projects| - 1;
    if GivesUpAlias(wanted, projects[k]) || projects[k].alias != alias {
      k := OwnerFrom(host, wanted, projects[..k], alias);
    }
  }

  /** The second plan's state has the alias and the place of an entry for its own project only. */
  lemma AliasIsOwn(r: Run, listed: seq<Project>, n: nat)
    requires WentThrough(r) && Lawful(r.host) && Lists(listed, r.after) && AllComplete(listed) && n < |r.entries|
    ensures
      var s := After(r.host, r.root, Knowledge(r.host, r.entries, listed), r.entries[..n]);
      var e := r.entries[n];
      e.alias in s.aliasOwner ==> s.aliasOwner[e.alias] == e.identity
  {
    var known := Knowledge(r.host, r.entries, listed);
    var s, e := After(r.host, r.root, known, r.entries[..n]), r.entries[n];
    ConflictFreeIsClear(r.host, r.root, KnownOf(r), r.entries, r.changes);
    if e.alias in s.aliasOwner {
      var i := AliasFrom(r.host, r.root, known, r.entries[..n], e.alias);
      if i < n && r.entries[i].alias == e.alias {
        EntriesApart(r.host, r.root, KnownOf(r), r.entries, i, n);
      } else {
        var k := OwnerFrom(r.host, WantedAliases(r.entries), listed, e.alias);
        var id := EntryHasRow(r, n);
        SameAliasSameRow(r.after, id, listed[k].id);
      }
    }
  }

  lemma SameAliasSameRow(rows: Rows, i: nat, j: nat)
    requires Sound(rows) && i in rows && j in rows && rows[i].alias == rows[j].alias
    ensures i == j
  {
    assert i != j ==> Apart(rows[i], rows[j]);
  }

  lemma SeenIsApart(r: Run, listed: seq<Project>, n: nat, path: Abs)
    requires WentThrough(r) && Lawful(r.host) && NoSharedPaths(r.host, r.rows)
    requires Lists(listed, r.after) && AllComplete(listed) && n < |r.entries|
    requires
      var s := After(r.host, r.root, Knowledge(r.host, r.entries, listed), r.entries[..n]);
      path in s.seenPaths && s.seenPaths[path] != r.entries[n].identity
    ensures !Overlaps(DesiredPath(r.host, r.root, r.entries[n]), path)
  {
    var known := Knowledge(r.host, r.entries, listed);
    var s := After(r.host, r.root, known, r.entries[..n]);
    var i := PathFrom(r.host, r.root, known, r.entries[..n], path);
    if i < n && DesiredPath(r.host, r.root, r.entries[i]) == path && r.entries[i].identity == s.seenPaths[path] {
      DesiredApart(r, n, i);
    } else {
      var k := SeenFrom(r.host, WantedAliases(r.entries), listed, path);
      KeptIsStillApart(r, n, listed[k].id, path);
    }
  }

  lemma PathIsFree(r: Run, listed: seq<Project>, n: nat)
    requires WentThrough(r) && Lawful(r.host) && NoSharedPaths(r.host, r.rows)
    requires Lists(listed, r.after) && AllComplete(listed) && n < |r.entries|
    ensures
      var s := After(r.host, r.root, Knowledge(r.host, r.entries, listed), r.entries[..n]);
      var desired := DesiredPath(r.host, r.root, r.entries[n]);
      && (desired in s.seenPaths ==> s.seenPaths[desired] == r.entries[n].identity)
      && !Nests(s.seenPaths, desired, r.entries[n].identity)
  {
    var s := After(r.host, r.root, Knowledge(r.host, r.entries, listed), r.entries[..n]);
    var desired := DesiredPath(r.host, r.root, r.entries[n]);
    forall path | path in s.seenPaths && s.seenPaths[path] != r.entries[n].identity
      ensures path != desired && !Within(desired, path) && !Within(path, desired)
    {
      SeenIsApart(r, listed, n, path);
      OverlapsIsComparable(desired, path);
      WithinIsProperPrefix(desired, path);
      WithinIsProperPrefix(path, desired);
    }
  }

  lemma IdentityIsNew(r: Run, listed: seq<Project>, n: nat)
    requires WentThrough(r) && AllComplete(listed) && n < |r.entries|
    ensures r.entries[n].identity !in
            After(r.host, r.root, Knowledge(r.host, r.entries, listed), r.entries[..n]).identities
    ensures PathWithinRoot(r.host, Canonical(r.host, r.root), DesiredPath(r.host, r.root, r.entries[n]))
  {
    var known, e := Knowledge(r.host, r.entries, listed), r.entries[n];
    ConflictFreeIsClear(r.host, r.root, KnownOf(r), r.entries, r.changes);
    assert ClearEntry(r.host, r.root, KnownOf(r), r.entries, n);
    if e.identity in After(r.host, r.root, known, r.entries[..n]).identities {
      var i := IdentityFrom(r.host, r.root, known, r.entries[..n], e.identity);
      EntriesApart(r.host, r.root, KnownOf(r), r.entries, i, n);
    }
  }

  lemma StillPlaced(r: Run, listed: seq<Project>, n: nat)
    requires WentThrough(r) && Lawful(r.host) && NoSharedPaths(r.host, r.rows)
    requires Lists(listed, r.after) && AllComplete(listed) && n < |r.entries|
    ensures Placed(r.host, r.root, After(r.host, r.root, Knowledge(r.host, r.entries, listed), r.entries[..n]),
        r.entries[n])
  {
    IdentityIsNew(r, listed, n);
    AliasIsOwn(r, listed, n);
    PathIsFree(r, listed, n);
  }

  lemma StillClear(r: Run, listed: seq<Project>, n: nat)
    requires WentThrough(r) && Lawful(r.host) && NoSharedPaths(r.host, r.rows)
    requires Lists(listed, r.after) && AllComplete(listed) && n < |r.entries|
    ensures
      var known := Knowledge(r.host, r.entries, listed);
      && ClearEntry(r.host, r.root, known, r.entries, n)
      && ChangeOf(r.host, r.root, known, r.entries[n]).action
         == if Late(r.host, r.root, KnownOf(r), r.entries[n]) then Update else Unchanged
  {
    StillPlaced(r, listed, n);
    var id := EntryHasRow(r, n);
    KnownIsRow(r.host, r.entries, listed, r.after, r.entries[n].identity);
  }

  /** Importing a manifest a second time, on the same file system, changes nothing; exactly the late rows get their
      local path respelled. */
  lemma ReplanIsUnchanged(r: Run, listed: seq<Project>, again: seq<Change>)
    requires WentThrough(r) && Lawful(r.host) && NoSharedPaths(r.host, r.rows)
    requires Lists(listed, r.after) && AllComplete(listed) && IsPlan(r.host, r.root, r.entries, listed, again)
    ensures |again| == |r.entries| && NoConflict(again)
    ensures forall i :: 0 <= i < |again| ==>
        again[i].action == if Late(r.host, r.root, KnownOf(r), r.entries[i]) then Update else Unchanged
  {
    var known := Knowledge(r.host, r.entries, listed);
    forall i | 0 <= i < |r.entries|
      ensures ClearEntry(r.host, r.root, known, r.entries, i)
      ensures ChangeOf(r.host, r.root, known, r.entries[i]).action
           == if Late(r.host, r.root, KnownOf(r), r.entries[i]) then Update else Unchanged
    {
      StillClear(r, listed, i);
    }
    ClearIsConflictFree(r.host, r.root, known, r.entries, again);
  }

  /** Without symbolic links no row is late, so everything is unchanged the second time. */
  lemma NoLinksNoLate(host: Host, root: Abs, known: Known, e: Entry)
    requires Lawful(host) && EntryOk(e) && KnownOk(known) && forall p: Abs :: Canonical(host, p) == p
    ensures !Late(host, root, known, e)
  {
  }

  // ----- a late row -----

  /** A machine whose workspace root "ws" is a link to the empty directory "d". */
  function Linked(): Host {
    Host(p => if p == [] || p == ["ws"] || p == ["d"] then Present else Missing,
         p => if p == [] then Directory(true, false) else if p == ["ws"] || p == ["d"] then Directory(true, true)
              else NotThere,
         p => if p == [] then At([]) else if p == ["ws"] || p == ["d"] then At(["d"]) else Absent)
  }

  lemma LinkedIsLawful()
    ensures Lawful(Linked())
  {
    var host := Linked();
    forall p: Abs, s: Abs ensures Follows(host, p, s) {
      if s == [] { assert p + s == p; } else { assert |p + s| >= 1; }
    }
  }

  lemma LinkedIsCanonical(host: Host)
    requires host == Linked()
    ensures Canonical(host, ["ws"]) == ["d"] && Canonical(host, ["d", "p"]) == ["d", "p"]
  {
    assert ["ws"][..1] == ["ws"] && ["d", "p"][..1] == ["d"] && ["d", "p"][..2] == ["d", "p"];
    NearestFrom(host, ["ws"], 1);
    NearestFrom(host, ["d", "p"], 1);
    assert ["ws"][1..] == [] && ["d"] + ["d", "p"][1..] == ["d", "p"];
  }

  /** A local-only project whose directory is missing, recorded under the directory that the root leads to. */
  function LinkedRow(): Project { Project(1, "a", "r", "r", Some(["d", "p"]), Some(["d", "p"]), LOCAL_ONLY) }

  function LinkedEntry(): Entry { Entry(VERSION, "r", "a", Some(Path(false, ["p"])), "") }

  function LinkedChange(): Change {
    Change(Update, 1, "r", "a", ["p"], Some(["d", "p"]), Some(["d", "p"]), "r", [SourceField])
  }

  function LinkedRun(): Run {
    Run(Linked(), ["ws"], [LinkedEntry()], [LinkedRow()], map[1 := LinkedRow()], [LinkedChange()], [],
        map[1 := FromChange(LinkedChange())])
  }

  lemma LinkedKnows(known: Known)
    requires known == Know(Linked(), WantedAliases([LinkedEntry()]), [LinkedRow()])
    ensures known == Known(map["r" := LinkedRow()], map[], map["a" := "r"], map[])
  {
    var entries, projects := [LinkedEntry()], [LinkedRow()];
    assert entries[..0] == [] && projects[..0] == [];
    assert WantedAliases(entries) == map["r" := "a"];
  }

  /** It is at its desired place, so that the first import only makes it canonical. */
  lemma LinkedIsPlanned(known: Known)
    requires known == Known(map["r" := LinkedRow()], map[], map["a" := "r"], map[])
    ensures Clear(Linked(), ["ws"], known, Start(known), LinkedEntry())
    ensures ChangeOf(Linked(), ["ws"], known, LinkedEntry()) == LinkedChange()
    ensures Late(Linked(), ["ws"], known, LinkedEntry())
  {
    var host, e := Linked(), LinkedEntry();
    LinkedIsLawful();
    LinkedIsCanonical(host);
    assert ["d"] + Below(e) == ["d", "p"] && ["ws"] + Below(e) == ["ws", "p"];
    CanonicalTwice(host, ["ws"]);
    WithinIsProperPrefix(["d", "p"], ["d"]);
  }

  lemma OneChangePlanned(host: Host, root: Abs, known: Known, e: Entry, c: Change)
    requires EntryOk(e) && KnownOk(known) && Clear(host, root, known, Start(known), e)
    requires c == ChangeOf(host, root, known, e)
    ensures AllOk([e]) && PlanFor(host, root, known, [e], [c])
  {
    assert [e][..0] == [] && [c][..0] == [];
  }

  lemma OneUpdateApplied(p: Project, c: Change)
    requires p.id == 1 && Complete(p) && c.action == Update && c.projectID == 1
    ensures Applied(map[1 := FromChange(c)], map[1 := p], [c], []) && NoConflict([c])
  {
    assert [c][..0] == [];
    assert OfAction([c], Update) == [c] && OfAction([c], Add) == [];
    assert Finals([c], 1) == map[1 := FromChange(c)];
  }

  lemma LinkedIsAPlan()
    ensures AllComplete([LinkedRow()]) && AllOk([LinkedEntry()])
    ensures IsPlan(Linked(), ["ws"], [LinkedEntry()], [LinkedRow()], [LinkedChange()])
    ensures Late(Linked(), ["ws"], Knowledge(Linked(), [LinkedEntry()], [LinkedRow()]), LinkedEntry())
  {
    var known := Knowledge(Linked(), [LinkedEntry()], [LinkedRow()]);
    LinkedKnows(Know(Linked(), WantedAliases([LinkedEntry()]), [LinkedRow()]));
    LinkedIsPlanned(known);
    OneChangePlanned(Linked(), ["ws"], known, LinkedEntry(), LinkedChange());
  }

  lemma OneRow(host: Host, p: Project)
    requires p.id == 1 && Complete(p)
    ensures Sound(map[1 := p]) && Lists([p], map[1 := p]) && NoSharedPaths(host, map[1 := p])
  {
    assert [p][0] in [p];
  }

  lemma RunGoesThrough(r: Run)
    requires Sound(r.rows) && Sound(r.after) && Lists(r.projects, r.rows)
    requires AllOk(r.entries) && AllComplete(r.projects)
    requires IsPlan(r.host, r.root, r.entries, r.projects, r.changes) && NoConflict(r.changes)
    requires Applied(r.after, r.rows, r.changes, r.added)
    ensures WentThrough(r)
  {
  }

  lemma LinkedGoesThrough()
    ensures WentThrough(LinkedRun()) && Lawful(LinkedRun().host) && NoSharedPaths(LinkedRun().host, LinkedRun().rows)
    ensures Late(LinkedRun().host, LinkedRun().root, KnownOf(LinkedRun()), LinkedEntry())
  {
    LinkedIsLawful();
    LinkedIsAPlan();
    OneRow(Linked(), LinkedRow());
    OneRow(Linked(), FromChange(LinkedChange()));
    OneUpdateApplied(LinkedRow(), LinkedChange());
    RunGoesThrough(LinkedRun());
  }

  /** The import goes through, and planning it again changes the row once more. */
  lemma SecondImportCanChange(listed: seq<Project>, again: seq<Change>)
    requires Lists(listed, LinkedRun().after) && AllComplete(listed) && AllOk(LinkedRun().entries)
    requires IsPlan(LinkedRun().host, LinkedRun().root, LinkedRun().entries, listed, again)
    ensures WentThrough(LinkedRun()) && Lawful(LinkedRun().host) && NoSharedPaths(LinkedRun().host, LinkedRun().rows)
    ensures |again| == 1 && again[0].action == Update
  {
    LinkedGoesThrough();
    ReplanIsUnchanged(LinkedRun(), listed, again);
  }
}
