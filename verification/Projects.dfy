/** The project table: its rows, its uniqueness checks, and the store whose calls may fail. */
module Projects {
  import opened Paths

  const CANONICAL := "canonical"
  const LOCAL_ONLY := "local-only"

  /** A blank path is None. */
  type Place = Option<Abs>

  datatype Project = Project(
    id: nat, alias: string, remote: string, cloneURL: string, localPath: Place, canonicalPath: Place, source: string)

  type Rows = map<nat, Project>

  datatype StoreError =
    | IdRequired | AliasRequired | RemoteRequired | PathRequired
    | AliasConflict | RemoteConflict | NotFound | Unavailable

  datatype Result<+T> = Ok(value: T) | Err(error: StoreError)

  /** `withProjectPlacementDefaults`, after the default clone URL. */
  function WithDefaults(p: Project): Project {
    p.(cloneURL := if p.cloneURL == "" then p.remote else p.cloneURL,
       canonicalPath := if p.canonicalPath.None? then p.localPath else p.canonicalPath,
       source := if p.source == CANONICAL then CANONICAL else LOCAL_ONLY)
  }

  function MissingField(p: Project): Option<StoreError> {
    if p.alias == "" then Some(AliasRequired)
    else if p.remote == "" then Some(RemoteRequired)
    else if p.localPath.None? then Some(PathRequired)
    else None
  }

  predicate AliasTaken(rows: Rows, alias: string, except: nat) {
    exists id <- rows :: id != except && rows[id].alias == alias
  }

  predicate RemoteTaken(rows: Rows, remote: string, except: nat) {
    exists id <- rows :: id != except && rows[id].remote == remote
  }

  // ----- the calls, as functions of the rows -----

  /** Row id 0 is nobody's. */
  function Checked(rows: Rows, id: nat, project: Project): Result<Project> {
    if MissingField(project).Some? then Err(MissingField(project).value)
    else if AliasTaken(rows, project.alias, id) then Err(AliasConflict)
    else if RemoteTaken(rows, project.remote, id) then Err(RemoteConflict)
    else Ok(WithDefaults(project).(id := id))
  }

  function TryUpdate(rows: Rows, id: nat, project: Project): Result<Project> {
    if id == 0 then Err(IdRequired)
    else
      var checked := Checked(rows, id, project);
      if checked.Ok? && id !in rows then Err(NotFound) else checked
  }

  datatype Upsert = RowAdded | RowUpdated | RowUnchanged

  /** The row of a remote, if there is one. */
  predicate HasRemote(rows: Rows, remote: string) { exists id <- rows :: rows[id].remote == remote }

  /** What an upsert makes of the row that has the remote: its local path follows, and so does the rest, but for a
      canonical row's clone URL, canonical path and source. */
  function Merged(existing: Project, project: Project): Project {
    if existing.source == CANONICAL then existing.(localPath := project.localPath)
    else existing.(localPath := project.localPath, cloneURL := project.cloneURL,
                   canonicalPath := project.canonicalPath, source := project.source)
  }

  /** What an upsert leaves of the row that has the remote, field by field: a canonical row only moves; any other takes
      over what was found, with the remote for a missing clone URL, and the local path for a missing canonical one. */
  lemma MergedFields(existing: Project, project: Project)
    ensures
      var row := Merged(existing, WithDefaults(project));
      && row.id == existing.id && row.alias == existing.alias && row.remote == existing.remote
      && row.localPath == project.localPath
      && if existing.source == CANONICAL then
           row.cloneURL == existing.cloneURL && row.canonicalPath == existing.canonicalPath && row.source == CANONICAL
         else
           && row.cloneURL == (if project.cloneURL == "" then project.remote else project.cloneURL)
           && row.canonicalPath == (if project.canonicalPath.None? then project.localPath else project.canonicalPath)
           && row.source == if project.source == CANONICAL then CANONICAL else LOCAL_ONLY
  {
  }

  function Spent(failing: Option<nat>): Option<nat> {
    if failing.None? || failing == Some(0) then None else Some(failing.value - 1)
  }

  /** That many calls still succeed. */
  predicate Lasts(failing: Option<nat>, calls: nat) { failing.None? || calls <= failing.value }

  function Left(failing: Option<nat>, calls: nat): Option<nat>
    requires Lasts(failing, calls)
  {
    if failing.None? then None else Some(failing.value - calls)
  }

  /** That many calls were made and succeeded; if something went wrong, the one after them failed. */
  predicate CallsMade(before: Option<nat>, after: Option<nat>, ok: bool, calls: nat) {
    if ok then Lasts(before, calls) && after == Left(before, calls) else before == Some(calls) && after.None?
  }

  lemma CallsAdd(before: Option<nat>, middle: Option<nat>, after: Option<nat>, ok: bool, first: nat, second: nat)
    requires CallsMade(before, middle, true, first) && CallsMade(middle, after, ok, second)
    ensures CallsMade(before, after, ok, first + second)
  {
  }

  // ----- what the table always satisfies -----

  predicate Complete(p: Project) {
    && p.id > 0 && p.alias != "" && p.remote != "" && p.cloneURL != "" && p.localPath.Some? && p.canonicalPath.Some?
    && (p.source == CANONICAL || p.source == LOCAL_ONLY)
  }

  predicate Apart(p: Project, q: Project) { p.alias != q.alias && p.remote != q.remote }

  ghost predicate Unique(rows: Rows) {
    forall i, j {:trigger Apart(rows[i], rows[j])} :: i in rows && j in rows && i != j ==> Apart(rows[i], rows[j])
  }

  ghost predicate Sound(rows: Rows) {
    && (forall id <- rows :: rows[id].id == id && Complete(rows[id]))
    && Unique(rows)
  }

  /** A listing has every row once; nothing below depends on its order. */
  ghost predicate Lists(projects: seq<Project>, rows: Rows) {
    && (forall i :: 0 <= i < |projects| ==> projects[i].id in rows && rows[projects[i].id] == projects[i])
    && (forall id <- rows :: rows[id] in projects)
    && (forall i, j :: 0 <= i < j < |projects| ==> projects[i].id != projects[j].id)
  }

  lemma CheckedKeepsSound(rows: Rows, id: nat, project: Project)
    requires Sound(rows) && id > 0 && Checked(rows, id, project).Ok?
    ensures Sound(rows[id := Checked(rows, id, project).value])
  {
  }

  lemma MergedKeepsSound(rows: Rows, id: nat, project: Project)
    requires Sound(rows) && id in rows && MissingField(project).None?
    ensures Sound(rows[id := Merged(rows[id], WithDefaults(project))])
  {
    var after := rows[id := Merged(rows[id], WithDefaults(project))];
    forall i, j | i in after && j in after && i != j ensures Apart(after[i], after[j]) {
      assert Apart(rows[i], rows[j]);
    }
  }

  class ProjectStore {
    var rows: Rows
    /** The number of calls that still succeed before one fails; None if none is going to fail. */
    var failing: Option<nat>

    ghost predicate Valid() reads this { Sound(rows) }

    constructor (failing: Option<nat>)
      ensures Valid() && rows == map[] && this.failing == failing
    {
      this.rows, this.failing := map[], failing;
    }

    /** Whether this call is the one that fails; at most one call ever does. */
    method Fails() returns (fails: bool)
      modifies this`failing
      ensures fails <==> old(failing) == Some(0)
      ensures failing == Spent(old(failing))
    {
      fails := failing == Some(0);
      failing := Spent(failing);
    }

    method ListProjects() returns (projects: seq<Project>)
      requires Valid()
      ensures Lists(projects, rows)
    {
      projects := [];
      var left := rows.Keys;
      while left != {}
        invariant left <= rows.Keys
        invariant forall i :: 0 <= i < |projects| ==>
            projects[i].id in rows.Keys - left && rows[projects[i].id] == projects[i]
        invariant forall id <- rows.Keys - left :: rows[id] in projects
        invariant forall i, j :: 0 <= i < j < |projects| ==> projects[i].id != projects[j].id
      {
        var id :| id in left;
        projects, left := projects + [rows[id]], left - {id};
      }
    }

    /** A new row gets an id no row has. */
    method AddProject(project: Project) returns (result: Result<Project>)
      requires Valid()
      modifies this
      ensures Valid() && failing == Spent(old(failing))
      ensures result == Err(Unavailable) <==> old(failing) == Some(0)
      ensures result.Err? ==> rows == old(rows)
      ensures old(failing) != Some(0) ==> result.Ok? == Checked(old(rows), 0, project).Ok?
      ensures result.Ok? ==>
          && result.value.id > 0 && result.value.id !in old(rows)
          && result.value == WithDefaults(project).(id := result.value.id)
          && rows == old(rows)[result.value.id := result.value]
    {
      var fails := Fails();
      if fails { return Err(Unavailable); }
      var checked := Checked(rows, 0, project);
      if checked.Err? { return checked; }
      var id := FreshId(rows.Keys);
      assert Checked(rows, id, project) == Ok(checked.value.(id := id)) by {
        assert !AliasTaken(rows, project.alias, 0) && !RemoteTaken(rows, project.remote, 0);
      }
      CheckedKeepsSound(rows, id, project);
      rows := rows[id := checked.value.(id := id)];
      return Ok(checked.value.(id := id));
    }

    method UpdateProject(id: nat, project: Project) returns (result: Result<Project>)
      requires Valid()
      modifies this
      ensures Valid() && failing == Spent(old(failing))
      ensures result == if old(failing) == Some(0) then Err(Unavailable) else TryUpdate(old(rows), id, project)
      ensures rows == if result.Ok? then old(rows)[id := result.value] else old(rows)
    {
      var fails := Fails();
      if fails { return Err(Unavailable); }
      result := TryUpdate(rows, id, project);
      if result.Ok? {
        CheckedKeepsSound(rows, id, project);
        rows := rows[id := result.value];
      }
    }

    /** A row with the same remote is merged with, and keeps its alias; otherwise the project is added. */
    method UpsertProject(project: Project) returns (result: Result<Project>, action: Upsert)
      requires Valid()
      modifies this
      ensures Valid() && failing == Spent(old(failing))
      ensures result == Err(Unavailable) <==> old(failing) == Some(0)
      ensures result.Err? ==> rows == old(rows)
      ensures old(failing) != Some(0) && MissingField(project).None? && HasRemote(old(rows), project.remote) ==>
          result.Ok? && result.value.id in old(rows) && old(rows)[result.value.id].remote == project.remote
          && result.value == Merged(old(rows)[result.value.id], WithDefaults(project))
          && (old(rows)[result.value.id].source != CANONICAL && project.canonicalPath.None? ==>
                result.value.canonicalPath == result.value.localPath == project.localPath)
          && (old(rows)[result.value.id].source == CANONICAL ==>
                result.value == old(rows)[result.value.id].(localPath := project.localPath))
          && rows == old(rows)[result.value.id := result.value]
          && (action == RowUnchanged <==> result.value == old(rows)[result.value.id]) && action != RowAdded
      ensures old(failing) != Some(0) && MissingField(project).None? && !HasRemote(old(rows), project.remote) ==>
          (result.Ok? <==> !AliasTaken(old(rows), project.alias, 0))
      ensures result.Ok? && !HasRemote(old(rows), project.remote) ==>
          && action == RowAdded && result.value.id > 0 && result.value.id !in old(rows)
          && result.value == WithDefaults(project).(id := result.value.id)
          && rows == old(rows)[result.value.id := result.value]
    {
      action := RowAdded;
      if MissingField(project).Some? || !HasRemote(rows, project.remote) {
        result := AddProject(project);
        return;
      }
      var fails := Fails();
      if fails { return Err(Unavailable), action; }
      var id :| id in rows && rows[id].remote == project.remote;
      var merged := Merged(rows[id], WithDefaults(project));
      if merged == rows[id] { return Ok(rows[id]), RowUnchanged; }
      MergedKeepsSound(rows, id, project);
      rows := rows[id := merged];
      return Ok(merged), RowUpdated;
    }

    method DeleteProject(id: nat) returns (result: Result<()>)
      requires Valid()
      modifies this
      ensures Valid() && failing == Spent(old(failing))
      ensures result == if old(failing) == Some(0) then Err(Unavailable) else if id == 0 then Err(IdRequired)
                        else if id !in old(rows) then Err(NotFound) else Ok(())
      ensures rows == if result.Ok? then old(rows) - {id} else old(rows)
    {
      var fails := Fails();
      if fails { return Err(Unavailable); }
      if id == 0 { return Err(IdRequired); }
      if id !in rows { return Err(NotFound); }
      rows := rows - {id};
      return Ok(());
    }

    /** The rollback of a transaction. */
    method Restore(snapshot: Rows)
      requires Sound(snapshot)
      modifies this`rows
      ensures Valid() && rows == snapshot
    {
      rows := snapshot;
    }
  }

  method FreshId(ids: set<nat>) returns (id: nat)
    ensures id > 0 && id !in ids
  {
    id := 1;
    var left := ids;
    while left != {}
      invariant id > 0 && left <= ids && forall i :: i in ids && i !in left ==> i < id
    {
      var i :| i in left;
      left := left - {i};
      if id <= i { id := i + 1; }
    }
  }
}
