/** Scanning a workspace: the projects found on the way are added to the registry, or merged with their rows. */
module Scan {
  import opened Paths
  import opened Names
  import opened Projects
  import opened ImportStages

  /** What git tells of a project: its root, the alias it would like and, if it is a supported one, its remote. */
  datatype Inspection = Unsupported | Inspected(root: Abs, alias: string, remote: Option<string>, cloneURL: string)

  /** A `.git` entry met on the walk, in the directory of a project. */
  datatype Visit = Visit(project: Abs, inspection: Inspection)

  datatype ScanResult = ScanResult(added: seq<Project>, updated: seq<Project>, same: seq<Project>, skipped: seq<Abs>)

  /** `isNestedProject` */
  method IsNested(path: Abs, roots: seq<Abs>) returns (nested: bool)
    ensures nested <==> exists root <- roots :: root < path
  {
    for i := 0 to |roots|
      invariant forall j :: 0 <= j < i ==> !(roots[j] < path)
    {
      WithinIsProperPrefix(path, roots[i]);
      assert roots[i] in roots;
      if Within(path, roots[i]) { return true; }
    }
    return false;
  }

  // ----- what a scan keeps -----

  /** What never changes in a row; a canonical row keeps all but its local path. */
  predicate KeepsRow(before: Project, after: Project) {
    && after.id == before.id && after.alias == before.alias && after.remote == before.remote
    && (before.source == CANONICAL ==> after == before.(localPath := after.localPath))
  }

  ghost predicate Evolves(before: Rows, after: Rows) {
    && before.Keys <= after.Keys
    && forall id {:trigger KeepsRow(before[id], after[id])} :: id in before && id in after ==>
         KeepsRow(before[id], after[id])
  }

  lemma EvolvesFurther(a: Rows, b: Rows, c: Rows)
    requires Evolves(a, b) && Evolves(b, c)
    ensures Evolves(a, c)
  {
    forall id | id in a && id in c ensures KeepsRow(a[id], c[id]) {
      assert KeepsRow(a[id], b[id]) && KeepsRow(b[id], c[id]);
    }
  }

  /** What was found first of each remote. */
  type Finds = map<string, Inspection>

  predicate IsFind(remote: string, found: Inspection) { found.Inspected? && found.remote == Some(remote) }

  ghost predicate IsAliasFor(name: string, alias: string) {
    var base := if alias == "" then "project" else alias;
    name == base || exists k :: k >= 2 && name == WithNumber(base, k)
  }

  /** The row of a remote that was found: a canonical row has only moved there; any other one is local-only, has both of
      its paths there, and the clone URL that was found; a known one keeps its alias, and a new one has the alias found,
      or that with a number. */
  ghost predicate IsScanned(row: Project, start: Rows, remote: string, found: Inspection)
    requires IsFind(remote, found)
  {
    && row.remote == remote && row.localPath == Some(found.root)
    && if row.id in start && start[row.id].source == CANONICAL then
         row == start[row.id].(localPath := Some(found.root))
       else
         && row.canonicalPath == Some(found.root) && row.source == LOCAL_ONLY
         && row.cloneURL == (if found.cloneURL == "" then remote else found.cloneURL)
         && if row.id in start then row.alias == start[row.id].alias else IsAliasFor(row.alias, found.alias)
  }

  /** Each remote seen has its row, as it was found first. */
  ghost predicate AllRecorded(rows: Rows, start: Rows, seen: Finds) {
    forall remote <- seen :: IsFind(remote, seen[remote]) && RecordedAs(rows, start, remote, seen[remote])
  }

  ghost predicate RecordedAs(rows: Rows, start: Rows, remote: string, found: Inspection)
    requires IsFind(remote, found)
  {
    exists id <- rows :: IsScanned(rows[id], start, remote, found)
  }

  /** Rows whose remote was not seen are as they were. */
  ghost predicate OthersUntouched(before: Rows, after: Rows, seen: Finds) {
    forall id <- after :: after[id].remote !in seen ==> id in before && after[id] == before[id]
  }

  ghost predicate Upserted(before: Rows, after: Rows, project: Project, row: Project) {
    && after == before[row.id := row] && row.remote == project.remote
    && row == if row.id in before then Merged(before[row.id], WithDefaults(project))
              else WithDefaults(project).(id := row.id)
  }

  /** What a scan upserts for a find. */
  ghost predicate IsProjectFor(project: Project, found: Inspection) {
    && IsFind(project.remote, found) && IsAliasFor(project.alias, found.alias) && project.cloneURL == found.cloneURL
    && project.localPath == Some(found.root) && project.canonicalPath.None? && project.source != CANONICAL
  }

  lemma UpsertedIsScanned(before: Rows, after: Rows, project: Project, row: Project, start: Rows, seen: Finds,
                          found: Inspection)
    requires Sound(before) && Upserted(before, after, project, row) && IsProjectFor(project, found)
    requires start.Keys <= before.Keys && OthersUntouched(start, before, seen) && project.remote !in seen
    ensures IsScanned(row, start, project.remote, found)
    ensures row.id in before ==> KeepsRow(before[row.id], row)
  {
    if row.id in before { MergedFields(before[row.id], project); }
  }

  lemma UpsertKeeps(before: Rows, after: Rows, project: Project, row: Project, start: Rows, seen: Finds,
                    found: Inspection)
    requires Sound(before) && Upserted(before, after, project, row) && row.id > 0
    requires IsProjectFor(project, found) && project.remote !in seen
    requires Evolves(start, before) && AllRecorded(before, start, seen) && OthersUntouched(start, before, seen)
    ensures Evolves(start, after) && AllRecorded(after, start, seen[project.remote := found])
    ensures OthersUntouched(start, after, seen[project.remote := found])
  {
    UpsertedIsScanned(before, after, project, row, start, seen, found);
    forall id | id in before && id in after ensures KeepsRow(before[id], after[id]) {}
    EvolvesFurther(start, before, after);
    var now := seen[project.remote := found];
    assert IsScanned(after[row.id], start, project.remote, found);
    forall remote | remote in now ensures IsFind(remote, now[remote]) && RecordedAs(after, start, remote, now[remote]) {
      if remote != project.remote {
        assert RecordedAs(before, start, remote, seen[remote]);
        var id :| id in before && IsScanned(before[id], start, remote, seen[remote]);
        assert after[id] == before[id];
      }
    }
  }

  predicate IsAction(action: Upsert, before: Rows, row: Project) {
    match action
    case RowAdded => row.id !in before
    case RowUpdated => row.id in before && before[row.id] != row
    case RowUnchanged => row.id in before && before[row.id] == row
  }

  /** The upsert of one project: its alias is not in use, so it cannot be refused. */
  method Record(store: ProjectStore, project: Project, ghost used: set<string>)
    returns (row: Option<Project>, action: Upsert)
    requires store.Valid() && used == Aliases(store.rows) && project.alias !in used && MissingField(project).None?
    modifies store
    ensures store.Valid() && (old(store.failing).None? ==> row.Some? && store.failing.None?)
    ensures row.None? ==> store.rows == old(store.rows)
    ensures row.Some? ==>
        && Upserted(old(store.rows), store.rows, project, row.value) && row.value.id > 0
        && Aliases(store.rows) == used + {row.value.alias}
        && IsAction(action, old(store.rows), row.value)
        && (action == RowAdded ==> row.value.alias == project.alias)
  {
    ghost var before := store.rows;
    NotTaken(before, project.alias);
    var result;
    result, action := store.UpsertProject(project);
    if result.Err? { return None, action; }
    row := Some(result.value);
    AliasesAfter(before, result.value);
  }

  lemma NotTaken(rows: Rows, alias: string)
    requires alias !in Aliases(rows)
    ensures !AliasTaken(rows, alias, 0)
  {
  }

  lemma AliasesAfter(rows: Rows, row: Project)
    requires row.id in rows ==> rows[row.id].alias == row.alias
    ensures Aliases(rows[row.id := row]) == Aliases(rows) + {row.alias}
  {
    var after := rows[row.id := row];
    assert after[row.id].alias in Aliases(after);
    forall alias | alias in Aliases(rows) ensures alias in Aliases(after) {
      var id :| id in rows && rows[id].alias == alias;
      assert after[id].alias == alias && after[id].alias in Aliases(after);
    }
  }

  /** Part-way through a scan. */
  ghost predicate Scanning(rows: Rows, start: Rows, used: set<string>, seen: Finds) {
    && used == Aliases(rows) && Evolves(start, rows) && AllRecorded(rows, start, seen)
    && OthersUntouched(start, rows, seen)
  }

  /** What git reports has a remote that is not blank. */
  predicate SaneVisit(v: Visit) {
    v.inspection.Inspected? && v.inspection.remote.Some? ==> v.inspection.remote.value != ""
  }

  /** The part of a visit after the checks: the project gets a free alias and is upserted. */
  method Register(store: ProjectStore, inspection: Inspection, used: set<string>, seen: Finds, ghost start: Rows)
    returns (row: Option<Project>, action: Upsert)
    requires store.Valid() && inspection.Inspected? && inspection.remote.Some? && inspection.remote.value != ""
    requires inspection.remote.value !in seen && Scanning(store.rows, start, used, seen)
    modifies store
    ensures store.Valid() && (old(store.failing).None? ==> row.Some? && store.failing.None?)
    ensures row.None? ==> store.rows == old(store.rows)
    ensures row.Some? ==>
        Scanning(store.rows, start, used + {row.value.alias}, seen[inspection.remote.value := inspection])
    ensures row.Some? && action == RowAdded ==> row.value.alias == FreeName(ScanCandidate(inspection.alias), used)
    ensures row.Some? ==>
        && IsAction(action, old(store.rows), row.value) && store.rows == old(store.rows)[row.value.id := row.value]
        && row.value.remote == inspection.remote.value
        && (row.value.id in old(store.rows) ==> old(store.rows)[row.value.id].remote == row.value.remote)
  {
    ghost var before := store.rows;
    var alias := UniqueAlias(inspection.alias, used);
    FreeNameIsFilled(inspection.alias, used);
    var project := Project(0, alias, inspection.remote.value, inspection.cloneURL, Some(inspection.root), None, "");
    row, action := Record(store, project, used);
    if row.Some? { UpsertKeeps(before, store.rows, project, row.value, start, seen, inspection); }
  }

  lemma FreeNameIsFilled(alias: string, used: set<string>)
    ensures FreeName(ScanCandidate(alias), used) != ""
  {
  }

  // ----- the lists a scan returns -----

  function Tally(r: ScanResult, row: Project, action: Upsert): ScanResult {
    match action
    case RowAdded => r.(added := r.added + [row])
    case RowUpdated => r.(updated := r.updated + [row])
    case RowUnchanged => r.(same := r.same + [row])
  }

  function Count(r: ScanResult): nat { |r.added| + |r.updated| + |r.same| + |r.skipped| }

  predicate IsListed(r: ScanResult, p: Project) { p in r.added || p in r.updated || p in r.same }

  /** The lists have exactly the rows of the remotes found: those that are new, those that have changed, and those that
      are as they were. */
  ghost predicate Listed(r: ScanResult, start: Rows, rows: Rows, seen: Finds) {
    && (forall p <- r.added :: p.id !in start)
    && (forall p <- r.updated :: p.id in start && start[p.id] != p)
    && (forall p <- r.same :: p.id in start && start[p.id] == p)
    && (forall p {:trigger IsListed(r, p)} :: IsListed(r, p) ==> p.id in rows && rows[p.id] == p && p.remote in seen)
    && (forall id <- rows :: rows[id].remote in seen ==> IsListed(r, rows[id]))
  }

  lemma TallyLists(r: ScanResult, row: Project, action: Upsert, p: Project)
    ensures IsListed(Tally(r, row, action), p) <==> IsListed(r, p) || p == row
  {
  }

  lemma OneMoreListed(r: ScanResult, start: Rows, before: Rows, seen: Finds, row: Project, action: Upsert,
                      found: Inspection)
    requires Sound(before) && Sound(before[row.id := row]) && Listed(r, start, before, seen) && row.remote !in seen
    requires start.Keys <= before.Keys && OthersUntouched(start, before, seen) && IsAction(action, before, row)
    requires row.id in before ==> before[row.id].remote == row.remote
    ensures Listed(Tally(r, row, action), start, before[row.id := row], seen[row.remote := found])
    ensures Count(Tally(r, row, action)) == Count(r) + 1
  {
    var next, after, now := Tally(r, row, action), before[row.id := row], seen[row.remote := found];
    forall p | IsListed(next, p) ensures p.id in after && after[p.id] == p && p.remote in now {
      TallyLists(r, row, action, p);
    }
    forall id | id in after && after[id].remote in now ensures IsListed(next, after[id]) {
      TallyLists(r, row, action, after[id]);
      if id != row.id && after[id].remote == row.remote { assert Apart(after[id], after[row.id]); }
    }
  }

  function Skip(r: ScanResult, path: Abs): ScanResult { r.(skipped := r.skipped + [path]) }

  lemma SkipLists(r: ScanResult, start: Rows, rows: Rows, seen: Finds, path: Abs)
    requires Listed(r, start, rows, seen)
    ensures Listed(Skip(r, path), start, rows, seen) && Count(Skip(r, path)) == Count(r) + 1
  {
    forall p ensures IsListed(Skip(r, path), p) == IsListed(r, p) {}
  }

  // ----- which visits find a project -----

  /** Where a walk has been: the roots it keeps others out of, what it found first of each remote, what it skipped. */
  datatype Trail = Trail(roots: seq<Abs>, first: Finds, skipped: seq<Abs>)

  predicate IsBelow(path: Abs, roots: seq<Abs>) { exists root <- roots :: root < path }

  /** Whether a visit that is not below a root finds a new remote. */
  predicate IsNew(v: Visit, first: Finds) {
    v.inspection.Inspected? && v.inspection.remote.Some? && v.inspection.remote.value !in first
  }

  /** One more visit. */
  function Trod(t: Trail, v: Visit): Trail {
    if IsBelow(v.project, t.roots) then t.(skipped := t.skipped + [v.project])
    else if IsNew(v, t.first) then
      Trail(t.roots + [v.project, v.inspection.root], t.first[v.inspection.remote.value := v.inspection], t.skipped)
    else
      t.(roots := t.roots + [v.project],
         skipped := t.skipped + [if v.inspection.Unsupported? then v.project else v.inspection.root])
  }

  function TrailOf(visits: seq<Visit>): Trail {
    if visits == [] then Trail([], map[], []) else Trod(TrailOf(visits[..|visits| - 1]), visits[|visits| - 1])
  }

  /** All the visits so far have left their directory among the roots, or were below one; the roots come from them. */
  lemma {:induction false} RootsOf(visits: seq<Visit>)
    ensures forall v <- visits :: v.project in TrailOf(visits).roots || IsBelow(v.project, TrailOf(visits).roots)
    ensures forall root <- TrailOf(visits).roots :: exists v <- visits ::
        root == v.project || (v.inspection.Inspected? && root == v.inspection.root)
  {
    if visits != [] {
      var n := |visits| - 1;
      RootsOf(visits[..n]);
      assert visits == visits[..n] + [visits[n]];
      forall v | v in visits[..n]
        ensures v.project in TrailOf(visits).roots || IsBelow(v.project, TrailOf(visits).roots)
      {
        if root :| root in TrailOf(visits[..n]).roots && root < v.project { assert root in TrailOf(visits).roots; }
      }
    }
  }

  /** A project inside one that was visited before is skipped, whatever became of that one. */
  lemma NestedIsSkipped(visits: seq<Visit>, i: nat, j: nat)
    requires i < j < |visits| && visits[i].project < visits[j].project
    ensures
      var before, after := TrailOf(visits[..j]), TrailOf(visits[..j + 1]);
      after == before.(skipped := before.skipped + [visits[j].project])
  {
    RootsOf(visits[..j]);
    assert visits[i] in visits[..j] && visits[..j + 1][..j] == visits[..j];
    var roots := TrailOf(visits[..j]).roots;
    if visits[i].project !in roots {
      var root :| root in roots && root < visits[i].project;
      assert root < visits[j].project;
    }
  }

  lemma TrodKeeps(t: Trail, v: Visit, remote: string)
    requires remote in t.first
    ensures remote in Trod(t, v).first && Trod(t, v).first[remote] == t.first[remote]
  {
  }

  lemma {:induction false} FindsStay(visits: seq<Visit>, m: nat, remote: string)
    requires m <= |visits| && remote in TrailOf(visits[..m]).first
    ensures remote in TrailOf(visits).first && TrailOf(visits).first[remote] == TrailOf(visits[..m]).first[remote]
  {
    var n := |visits| - 1;
    if m == |visits| {
      assert visits[..m] == visits;
    } else {
      assert visits[..n][..m] == visits[..m];
      FindsStay(visits[..n], m, remote);
      TrodKeeps(TrailOf(visits[..n]), visits[n], remote);
    }
  }

  predicate Surrounds(v: Visit, path: Abs) {
    v.project < path || (v.inspection.Inspected? && v.inspection.root < path)
  }

  lemma NotBelow(visits: seq<Visit>, path: Abs)
    requires forall v <- visits :: !Surrounds(v, path)
    ensures !IsBelow(path, TrailOf(visits).roots)
  {
    RootsOf(visits);
    if root :| root in TrailOf(visits).roots && root < path {
      var v :| v in visits && (root == v.project || (v.inspection.Inspected? && root == v.inspection.root));
      assert Surrounds(v, path);
    }
  }

  predicate FoundBy(visits: seq<Visit>, found: Inspection) { exists v <- visits :: v.inspection == found }

  /** Every find is what one of the visits found. */
  lemma {:induction false} FindIsVisit(visits: seq<Visit>, remote: string)
    requires remote in TrailOf(visits).first
    ensures IsFind(remote, TrailOf(visits).first[remote]) && FoundBy(visits, TrailOf(visits).first[remote])
  {
    var n := |visits| - 1;
    var before := TrailOf(visits[..n]);
    assert TrailOf(visits) == Trod(before, visits[n]);
    if remote in before.first {
      FindIsVisit(visits[..n], remote);
      var v :| v in visits[..n] && v.inspection == before.first[remote];
      assert v in visits;
    } else {
      assert visits[n] in visits;
    }
  }

  lemma NotFoundYet(visits: seq<Visit>, remote: string)
    requires forall v <- visits :: !IsFind(remote, v.inspection)
    ensures remote !in TrailOf(visits).first
  {
    if remote in TrailOf(visits).first { FindIsVisit(visits, remote); }
  }

  lemma OneVisitFinds(t: Trail, v: Visit, remote: string)
    requires !IsBelow(v.project, t.roots) && IsFind(remote, v.inspection)
    ensures remote in Trod(t, v).first
    ensures remote !in t.first ==> Trod(t, v).first[remote] == v.inspection
  {
  }

  /** A project that is inside none of those visited before is found, if it has a supported remote, and as it is if the
      remote is new. */
  lemma OutsideIsFound(visits: seq<Visit>, i: nat, remote: string)
    requires i < |visits| && IsFind(remote, visits[i].inspection)
    requires forall v <- visits[..i] :: !Surrounds(v, visits[i].project)
    ensures remote in TrailOf(visits).first
    ensures (forall v <- visits[..i] :: !IsFind(remote, v.inspection)) ==>
        TrailOf(visits).first[remote] == visits[i].inspection
  {
    NotBelow(visits[..i], visits[i].project);
    assert visits[..i + 1][..i] == visits[..i];
    OneVisitFinds(TrailOf(visits[..i]), visits[i], remote);
    FindsStay(visits, i + 1, remote);
    if forall v <- visits[..i] :: !IsFind(remote, v.inspection) { NotFoundYet(visits[..i], remote); }
  }

  // ----- the walk -----

  /** What a scan keeps track of: the aliases in use, the roots found, and what was found first of each remote. */
  datatype Walk = Walk(used: set<string>, roots: seq<Abs>, first: Finds, outcome: ScanResult)

  ghost predicate Walking(rows: Rows, start: Rows, w: Walk) {
    Sound(rows) && Scanning(rows, start, w.used, w.first) && Listed(w.outcome, start, rows, w.first)
  }

  function TrailBy(w: Walk): Trail { Trail(w.roots, w.first, w.outcome.skipped) }

  /** A visit that registers a project. */
  method RegisterVisit(store: ProjectStore, v: Visit, w: Walk, ghost start: Rows) returns (next: Option<Walk>)
    requires Walking(store.rows, start, w) && SaneVisit(v) && IsNew(v, w.first)
    modifies store
    ensures store.Valid() && (old(store.failing).None? ==> next.Some? && store.failing.None?)
    ensures next.None? ==> store.rows == old(store.rows)
    ensures next.Some? ==>
        && Walking(store.rows, start, next.value) && Count(next.value.outcome) == Count(w.outcome) + 1
        && TrailBy(next.value) == Trail(w.roots + [v.inspection.root],
             w.first[v.inspection.remote.value := v.inspection], w.outcome.skipped)
  {
    ghost var before := store.rows;
    var row, action := Register(store, v.inspection, w.used, w.first, start);
    if row.None? { return None; }
    OneMoreListed(w.outcome, start, before, w.first, row.value, action, v.inspection);
    return Some(Walk(w.used + {row.value.alias}, w.roots + [v.inspection.root],
                     w.first[v.inspection.remote.value := v.inspection], Tally(w.outcome, row.value, action)));
  }

  /** One visit: a nested project, one that git does not support, and one whose remote is not supported or was found
      before are skipped. */
  method VisitOne(store: ProjectStore, v: Visit, w: Walk, ghost start: Rows) returns (next: Option<Walk>)
    requires Walking(store.rows, start, w) && SaneVisit(v)
    modifies store
    ensures store.Valid() && (old(store.failing).None? ==> next.Some? && store.failing.None?)
    ensures next.None? ==> store.rows == old(store.rows)
    ensures next.Some? ==>
        && Walking(store.rows, start, next.value) && Count(next.value.outcome) == Count(w.outcome) + 1
        && TrailBy(next.value) == Trod(TrailBy(w), v)
  {
    var nested := IsNested(v.project, w.roots);
    SkipLists(w.outcome, start, store.rows, w.first, v.project);
    if nested { return Some(w.(outcome := Skip(w.outcome, v.project))); }
    var roots := w.roots + [v.project];
    if v.inspection.Unsupported? { return Some(w.(roots := roots, outcome := Skip(w.outcome, v.project))); }
    if v.inspection.remote.None? || v.inspection.remote.value in w.first {
      SkipLists(w.outcome, start, store.rows, w.first, v.inspection.root);
      return Some(w.(roots := roots, outcome := Skip(w.outcome, v.inspection.root)));
    }
    next := RegisterVisit(store, v, w.(roots := roots), start);
    assert w.roots + [v.project] + [v.inspection.root] == w.roots + [v.project, v.inspection.root];
  }

  /** The walk, up to a failing call. */
  method WalkAll(store: ProjectStore, visits: seq<Visit>, start: Walk, ghost rows: Rows)
    returns (ok: bool, w: Walk, ghost n: nat)
    requires Walking(store.rows, rows, start) && (forall v <- visits :: SaneVisit(v))
    requires TrailBy(start) == Trail([], map[], []) && Count(start.outcome) == 0
    modifies store
    ensures Walking(store.rows, rows, w) && (old(store.failing).None? ==> ok)
    ensures n <= |visits| && TrailBy(w) == TrailOf(visits[..n]) && Count(w.outcome) == n && (ok ==> n == |visits|)
  {
    w, n := start, 0;
    for i := 0 to |visits|
      invariant Walking(store.rows, rows, w) && (old(store.failing).None? ==> store.failing.None?)
      invariant Count(w.outcome) == i == n && TrailBy(w) == TrailOf(visits[..i])
    {
      assert visits[i] in visits && visits[..i + 1][..i] == visits[..i];
      var next := VisitOne(store, visits[i], w, rows);
      if next.None? { return false, w, n; }
      w, n := next.value, n + 1;
    }
    ok := true;
  }

  /** `ScanWorkspace`, on the visits of its walk: without a failing call it always goes through, and finds what its
      trail says.  No two rows come to have the same alias or remote, canonical rows keep all but their local path,
      every remote found has its row, as it was found first, and the lists returned account for every visit. */
  method ScanWorkspace(store: ProjectStore, visits: seq<Visit>)
    returns (result: Option<ScanResult>, ghost seen: Finds, ghost n: nat)
    requires store.Valid() && forall v <- visits :: SaneVisit(v)
    modifies store
    ensures store.Valid() && (old(store.failing).None? ==> result.Some?)
    ensures n <= |visits| && seen == TrailOf(visits[..n]).first && (result.Some? ==> n == |visits|)
    ensures Evolves(old(store.rows), store.rows) && AllRecorded(store.rows, old(store.rows), seen)
    ensures OthersUntouched(old(store.rows), store.rows, seen)
    ensures result.Some? ==>
        && Listed(result.value, old(store.rows), store.rows, seen) && Count(result.value) == |visits|
        && result.value.skipped == TrailOf(visits).skipped
  {
    ghost var start := store.rows;
    var projects := store.ListProjects();
    AliasesOfList(projects, store.rows);
    var w := Walk(set p <- projects :: p.alias, [], map[], ScanResult([], [], [], []));
    NothingListed(start);
    var ok;
    ok, w, n := WalkAll(store, visits, w, start);
    assert visits[..|visits|] == visits;
    return if ok then Some(w.outcome) else None, w.first, n;
  }

  lemma NothingListed(rows: Rows)
    ensures Listed(ScanResult([], [], [], []), rows, rows, map[]) && Count(ScanResult([], [], [], [])) == 0
  {
    forall p ensures !IsListed(ScanResult([], [], [], []), p) {}
  }

  lemma AliasesOfList(projects: seq<Project>, rows: Rows)
    requires Lists(projects, rows)
    ensures (set p <- projects :: p.alias) == Aliases(rows)
  {
  }
}
