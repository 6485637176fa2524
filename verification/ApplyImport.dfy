/** Applying an import plan to the store, as the source does it call by call, and undoing it when a call fails. */
module ApplyImport {
  import opened Paths
  import opened Names
  import opened Projects
  import opened Manifest
  import opened ImportStages

  datatype Rollback = Rollback(originals: map<nat, Project>, tempRenamed: seq<nat>, finalUpdated: seq<Project>)

  datatype UpdatesOutcome = UpdatesDone(rollback: Rollback) | UpdatesFailed(clean: bool)

  /** A failed import reports whether its rollback went through without an error. */
  datatype ImportOutcome = Imported(updated: seq<Project>, added: seq<Project>) | Refused | Failed(clean: bool)

  function Originals(rows: Rows, updates: seq<Change>): map<nat, Project>
    requires forall u <- updates :: u.projectID in rows
  {
    map u <- updates :: u.projectID := rows[u.projectID]
  }

  function FinalRows(updates: seq<Change>, k: nat): (rows: seq<Project>)
    requires k <= |updates|
    ensures |rows| == k
  {
    seq(k, i requires 0 <= i < k => FromChange(updates[i]))
  }

  method Smallest(ids: set<nat>) returns (least: nat)
    requires ids != {}
    ensures least in ids && forall id <- ids :: least <= id
  {
    least :| least in ids;
    var left := ids - {least};
    while left != {}
      invariant least in ids && left <= ids && forall id :: id in ids && id !in left ==> least <= id
    {
      var id :| id in left;
      left := left - {id};
      if id < least { least := id; }
    }
  }

  // ----- rolling the updates back -----

  lemma NextDrawnName(rows: Rows, updates: seq<Change>, k: nat, n: nat)
    requires n < k <= |updates| && forall u <- updates :: u.projectID in rows
    ensures
      var names := DrawnNames(rows, updates, k);
      names[n] == FreeName(RollbackCandidate(updates[n].projectID),
                           OriginalAliases(rows, updates) + (set name <- names[..n]))
  {
    DrawnOneByOne(Ids(updates[..k]), OriginalAliases(rows, updates), n);
  }

  /** After n turns of the renaming loop: the rows that could be renamed are, and an error was seen if one could
      not. */
  ghost predicate RenamedTo(now: Rows, rows: Rows, updates: seq<Change>, temps: map<nat, string>, k: nat, n: nat,
                            clean: bool)
    requires n <= k <= |updates| && forall u <- updates :: u.projectID in rows
  {
    var names := DrawnNames(rows, updates, k);
    var refused := RefusedRenames(rows, updates, k, names, n);
    && (clean <==> refused == {})
    && now == Stage(rows, temps, Renamed(updates, k, names, n, refused))
  }

  method RenameForRollback(store: ProjectStore, project: Project, alias: string, clean: bool, ghost rows: Rows,
                           ghost updates: seq<Change>, ghost temps: map<nat, string>, ghost k: nat, ghost n: nat)
    returns (clean': bool)
    requires store.Valid() && store.failing.None? && RollbackState(rows, updates, temps, k) && n < k
    requires project == FromChange(updates[n]) && alias == DrawnNames(rows, updates, k)[n]
    requires RenamedTo(store.rows, rows, updates, temps, k, n, clean)
    modifies store
    ensures store.Valid() && store.failing.None? && RenamedTo(store.rows, rows, updates, temps, k, n + 1, clean')
  {
    ghost var names := DrawnNames(rows, updates, k);
    ghost var refused := RefusedRenames(rows, updates, k, names, n);
    var p := project.(alias := alias);
    RenameSucceeds(rows, updates, temps, k, n, refused);
    var result := store.UpdateProject(project.id, p);
    clean' := clean && result.Ok?;
    RenameOne(updates, k, names, n, refused);
    RefuseOne(updates, k, names, n, refused);
    StageSets(rows, temps, Renamed(updates, k, names, n, refused), p);
    assert updates[n] in updates;
  }

  /** The aliases in `used` after n turns. */
  function UsedAfter(rows: Rows, updates: seq<Change>, k: nat, n: nat): set<string>
    requires n <= k <= |updates| && forall u <- updates :: u.projectID in rows
  {
    var names := DrawnNames(rows, updates, k)[..n];
    OriginalAliases(rows, updates) + set name <- names
  }

  method DrawRollbackAlias(id: nat, used: set<string>, ghost rows: Rows, ghost updates: seq<Change>, ghost k: nat,
                           ghost n: nat)
    returns (alias: string, used': set<string>)
    requires n < k <= |updates| && (forall u <- updates :: u.projectID in rows) && id == updates[n].projectID
    requires used == UsedAfter(rows, updates, k, n)
    ensures alias == DrawnNames(rows, updates, k)[n]
    ensures used' == UsedAfter(rows, updates, k, n + 1)
  {
    ghost var names := DrawnNames(rows, updates, k);
    NextDrawnName(rows, updates, k, n);
    CandidatesInjective(id, "");
    alias := Search(RollbackCandidate(id), used);
    used' := used + {alias};
    assert names[..n + 1] == names[..n] + [names[n]];
  }

  lemma StageSets(rows: Rows, temps: map<nat, string>, finals: map<nat, Project>, p: Project)
    requires p.id in rows
    ensures Stage(rows, temps, finals)[p.id := p] == Stage(rows, temps, finals[p.id := p])
  {
  }

  ghost predicate RenamedSoFar(now: Rows, used: set<string>, clean: bool, rows: Rows, updates: seq<Change>,
                               temps: map<nat, string>, k: nat, n: nat)
  {
    && RollbackState(rows, updates, temps, k) && n <= k && Sound(now)
    && used == UsedAfter(rows, updates, k, n) && RenamedTo(now, rows, updates, temps, k, n, clean)
  }

  /** What holds after n turns of the renaming loop. */
  ghost predicate Renaming(store: ProjectStore, used: set<string>, clean: bool, rows: Rows, updates: seq<Change>,
                           temps: map<nat, string>, k: nat, n: nat)
    reads store
  {
    store.failing.None? && RenamedSoFar(store.rows, used, clean, rows, updates, temps, k, n)
  }

  /** One turn of the renaming loop. */
  method RollbackTurn(store: ProjectStore, finalUpdated: seq<Project>, n: nat, used: set<string>, clean: bool,
                      ghost rows: Rows, ghost updates: seq<Change>, ghost temps: map<nat, string>, ghost k: nat)
    returns (used': set<string>, clean': bool)
    requires Renaming(store, used, clean, rows, updates, temps, k, n)
    requires n < k <= |updates| && finalUpdated == FinalRows(updates, k)
    modifies store
    ensures Renaming(store, used', clean', rows, updates, temps, k, n + 1)
  {
    var project := finalUpdated[n];
    var alias;
    alias, used' := DrawRollbackAlias(project.id, used, rows, updates, k, n);
    clean' := RenameForRollback(store, project, alias, clean, rows, updates, temps, k, n);
  }

  /** The renaming half of `rollbackImportUpdates`: each finally updated row gets an alias of its own. */
  method FreeRollbackAliases(store: ProjectStore, used: set<string>, finalUpdated: seq<Project>, ghost rows: Rows,
                             ghost updates: seq<Change>, ghost temps: map<nat, string>, ghost k: nat)
    returns (used': set<string>, clean: bool)
    requires Renaming(store, used, true, rows, updates, temps, k, 0)
    requires k <= |updates| && finalUpdated == FinalRows(updates, k)
    modifies store
    ensures Renaming(store, used', clean, rows, updates, temps, k, k)
  {
    clean := true;
    used' := used;
    var n := 0;
    while n < |finalUpdated|
      invariant 0 <= n <= k && Renaming(store, used', clean, rows, updates, temps, k, n)
    {
      used', clean := RollbackTurn(store, finalUpdated, n, used', clean, rows, updates, temps, k);
      n := n + 1;
    }
    assert n == k;
  }

  lemma NothingRenamedYet(rows: Rows, updates: seq<Change>, temps: map<nat, string>, k: nat)
    requires k <= |updates| && forall u <- updates :: u.projectID in rows
    ensures RenamedTo(Stage(rows, temps, Finals(updates, k)), rows, updates, temps, k, 0, true)
  {
    NoneRenamed(updates, k, DrawnNames(rows, updates, k));
  }

  lemma UsedAtFirst(rows: Rows, updates: seq<Change>, k: nat)
    requires k <= |updates| && forall u <- updates :: u.projectID in rows
    ensures (set id <- Originals(rows, updates) :: Originals(rows, updates)[id].alias) == UsedAfter(rows, updates, k, 0)
  {
    var originals := Originals(rows, updates);
    forall alias | alias in OriginalAliases(rows, updates)
      ensures alias in (set id <- originals :: originals[id].alias)
    {
      var u :| u in updates && rows[u.projectID].alias == alias;
      assert u.projectID in originals;
    }
  }

  /** Part-way through the restoring loop, as long as no restore was refused: `left` are the rows still to restore. */
  ghost predicate Restoring(now: Rows, rows: Rows, temps: map<nat, string>, finals: map<nat, Project>, left: set<nat>) {
    Restorable(rows, temps, finals) && now == Stage(rows, temps, finals) && left == temps.Keys + finals.Keys
  }

  lemma RestoreStep(now: Rows, rows: Rows, temps: map<nat, string>, finals: map<nat, Project>, left: set<nat>, id: nat)
    requires Restoring(now, rows, temps, finals, left) && id in left && id in rows
    ensures
      var restored := TryUpdate(now, id, rows[id]);
      if Occupied(finals, id, rows[id].alias) then restored.Err? else
        restored == Ok(rows[id]) && Restoring(now[id := rows[id]], rows, temps - {id}, finals - {id}, left - {id})
  {
    RestoreSucceeds(rows, temps, finals, id);
    RestoredIsRestorable(rows, temps, finals, id);
    assert left - {id} == (temps - {id}).Keys + (finals - {id}).Keys;
  }

  /** A row whose restore was refused does not have its old alias. */
  lemma OccupiedIsLost(now: Rows, rows: Rows, temps: map<nat, string>, finals: map<nat, Project>, left: set<nat>,
                       id: nat)
    requires Restoring(now, rows, temps, finals, left) && Sound(now) && id in left && id in rows
    requires Occupied(finals, id, rows[id].alias)
    ensures Lost(now, rows, id)
  {
    var other :| other in finals && other != id && finals[other].alias == rows[id].alias;
    assert Apart(now[other], now[id]);
  }

  ghost predicate Lost(now: Rows, rows: Rows, id: nat) { id in rows && id in now && now[id].alias != rows[id].alias }

  /** What holds when the originals of `done` were tried, in the order of their ids, and those of `left` were not. */
  ghost predicate RestoresTried(now: Rows, rows: Rows, temps: map<nat, string>, finals: map<nat, Project>,
                                done: set<nat>, left: set<nat>, clean: bool) {
    && Sound(now) && Restorable(rows, temps, finals) && done + left == temps.Keys + finals.Keys
    && (forall i <- done, j <- left :: i < j)
    && (clean <==> NoneBlocked(rows, finals, done))
    && if clean then Restoring(now, rows, temps - done, finals - done, left)
       else exists id <- done :: Lost(now, rows, id)
  }

  lemma OccupiedIsBlocked(rows: Rows, finals: map<nat, Project>, done: set<nat>, left: set<nat>, id: nat)
    requires id in left && id in rows && finals.Keys <= done + left
    requires (forall i <- done, j <- left :: i < j) && (forall j <- left :: id <= j)
    ensures Occupied(finals - done, id, rows[id].alias) <==>
            exists other <- finals :: BlockedBy(rows, finals, id, other)
  {
    forall other | other in finals ensures other in finals - done && other != id <==> id < other {}
    if other :| other in finals && BlockedBy(rows, finals, id, other) {
      assert other in finals - done && (finals - done)[other] == finals[other];
    }
    if Occupied(finals - done, id, rows[id].alias) {
      var other :| other in finals - done && other != id && (finals - done)[other].alias == rows[id].alias;
      assert BlockedBy(rows, finals, id, other);
    }
  }

  predicate HoldsRows(originals: map<nat, Project>, rows: Rows, ids: set<nat>) {
    forall id <- ids :: id in originals && id in rows && originals[id] == rows[id]
  }

  lemma NotBlocked(rows: Rows, finals: map<nat, Project>, done: set<nat>, left: set<nat>, id: nat)
    requires id in left && id in rows && finals.Keys <= done + left
    requires (forall i <- done, j <- left :: i < j) && (forall j <- left :: id <= j)
    requires NoneBlocked(rows, finals, done) && !Occupied(finals - done, id, rows[id].alias)
    ensures NoneBlocked(rows, finals, done + {id})
  {
    OccupiedIsBlocked(rows, finals, done, left, id);
  }

  lemma RestoringNext(now: Rows, rows: Rows, temps: map<nat, string>, finals: map<nat, Project>, done: set<nat>,
                      left: set<nat>, id: nat)
    requires id in rows && Restoring(now, rows, temps - done, finals - done, left) && id in left
    requires !Occupied(finals - done, id, rows[id].alias)
    ensures Restoring(now[id := rows[id]], rows, temps - (done + {id}), finals - (done + {id}), left - {id})
  {
    RestoreStep(now, rows, temps - done, finals - done, left, id);
    assert temps - (done + {id}) == temps - done - {id} && finals - (done + {id}) == finals - done - {id};
  }

  lemma NextRestored(now: Rows, rows: Rows, temps: map<nat, string>, finals: map<nat, Project>, done: set<nat>,
                     left: set<nat>, id: nat)
    requires id in rows && RestoresTried(now, rows, temps, finals, done, left, true) && Sound(now[id := rows[id]])
    requires id in left && (forall j <- left :: id <= j) && id !in done
    requires !Occupied(finals - done, id, rows[id].alias)
    ensures RestoresTried(now[id := rows[id]], rows, temps, finals, done + {id}, left - {id}, true)
  {
    NotBlocked(rows, finals, done, left, id);
    RestoringNext(now, rows, temps, finals, done, left, id);
    assert done + {id} + (left - {id}) == done + left;
  }

  lemma NextIsLost(now: Rows, rows: Rows, temps: map<nat, string>, finals: map<nat, Project>, done: set<nat>,
                   left: set<nat>, id: nat)
    requires RestoresTried(now, rows, temps, finals, done, left, true)
    requires id in left && (forall j <- left :: id <= j) && id !in done && id in rows
    requires Occupied(finals - done, id, rows[id].alias)
    ensures RestoresTried(now, rows, temps, finals, done + {id}, left - {id}, false)
  {
    OccupiedIsBlocked(rows, finals, done, left, id);
    OccupiedIsLost(now, rows, temps - done, finals - done, left, id);
    assert id in done + {id};
  }

  lemma StaysLost(now: Rows, now': Rows, rows: Rows, temps: map<nat, string>, finals: map<nat, Project>,
                  done: set<nat>, left: set<nat>, id: nat)
    requires RestoresTried(now, rows, temps, finals, done, left, false) && Sound(now') && id in left && id !in done
    requires forall j <- left :: id <= j
    requires forall other <- now :: other != id ==> other in now' && now'[other] == now[other]
    ensures RestoresTried(now', rows, temps, finals, done + {id}, left - {id}, false)
  {
    var lost :| lost in done && Lost(now, rows, lost);
    assert lost in done + {id} && Lost(now', rows, lost);
  }

  /** One turn of the restoring loop. */
  method RestoreOne(store: ProjectStore, id: nat, original: Project, clean: bool, ghost rows: Rows,
                    ghost temps: map<nat, string>, ghost finals: map<nat, Project>, ghost done: set<nat>,
                    ghost left: set<nat>) returns (clean': bool)
    requires store.failing.None? && RestoresTried(store.rows, rows, temps, finals, done, left, clean)
    requires id in left && (forall j <- left :: id <= j) && id !in done && id in rows && original == rows[id]
    modifies store
    ensures store.failing.None? && RestoresTried(store.rows, rows, temps, finals, done + {id}, left - {id}, clean')
  {
    ghost var now := store.rows;
    if clean { RestoreStep(now, rows, temps - done, finals - done, left, id); }
    var result := store.UpdateProject(id, original);
    clean' := clean && result.Ok?;
    if !clean {
      StaysLost(now, store.rows, rows, temps, finals, done, left, id);
    } else if result.Ok? {
      NextRestored(now, rows, temps, finals, done, left, id);
    } else {
      NextIsLost(now, rows, temps, finals, done, left, id);
    }
  }

  /** The restoring half of `rollbackImportUpdates`, in the order of the ids: the rows are as they were exactly if no
      restore was refused. */
  method RestoreOriginals(store: ProjectStore, originals: map<nat, Project>, ids: set<nat>, ghost rows: Rows,
                          ghost temps: map<nat, string>, ghost finals: map<nat, Project>) returns (clean: bool)
    requires store.Valid() && store.failing.None?
    requires Restoring(store.rows, rows, temps, finals, ids) && HoldsRows(originals, rows, ids)
    modifies store
    ensures store.Valid() && store.failing.None?
    ensures clean <==> NoneBlocked(rows, finals, ids)
    ensures store.rows == rows <==> clean
  {
    ghost var done := {};
    clean := true;
    var left := ids;
    assert temps - done == temps && finals - done == finals;
    while left != {}
      invariant left <= ids && done == ids - left && store.failing.None?
      invariant RestoresTried(store.rows, rows, temps, finals, done, left, clean)
    {
      var id := Smallest(left);
      if id in originals {
        clean := RestoreOne(store, id, originals[id], clean, rows, temps, finals, done, left);
      }
      left, done := left - {id}, done + {id};
    }
    AllTried(store.rows, rows, temps, finals, ids, clean);
  }

  lemma AllTried(now: Rows, rows: Rows, temps: map<nat, string>, finals: map<nat, Project>, ids: set<nat>, clean: bool)
    requires RestoresTried(now, rows, temps, finals, ids, {}, clean)
    ensures clean <==> NoneBlocked(rows, finals, ids)
    ensures now == rows <==> clean
  {
    if clean {
      assert temps - ids == map[] && finals - ids == map[];
      NothingLeft(rows);
    }
  }

  function Among(ids: seq<nat>): set<nat> {
    if ids == [] then {} else Among(ids[..|ids| - 1]) + {ids[|ids| - 1]}
  }

  lemma OneMoreAmong(ids: seq<nat>, id: nat)
    ensures Among(ids + [id]) == Among(ids) + {id}
  {
    assert (ids + [id])[..|ids|] == ids;
  }

  /** What an update phase that stopped after k final updates leaves behind. */
  ghost predicate Stopped(now: Rows, rollback: Rollback, rows: Rows, updates: seq<Change>, temps: map<nat, string>,
      k: nat) {
    && RollbackState(rows, updates, temps, k)
    && now == Stage(rows, temps, Finals(updates, k))
    && rollback.originals == Originals(rows, updates) && rollback.finalUpdated == FinalRows(updates, k)
    && Among(rollback.tempRenamed) == temps.Keys
    && (k > 0 ==> forall u <- updates :: u.projectID !in temps ==> rows[u.projectID].alias == u.alias)
  }

  function RestoreIds(rollback: Rollback): set<nat> {
    Among(rollback.tempRenamed) + (set p <- rollback.finalUpdated :: p.id)
  }

  lemma IdsToRestore(stopped: Rows, rollback: Rollback, rows: Rows, updates: seq<Change>, temps: map<nat, string>,
      k: nat)
    requires Stopped(stopped, rollback, rows, updates, temps, k)
    ensures RestoreIds(rollback) == temps.Keys + Freed(rows, updates, k).Keys
  {
    FinalIds(updates, k, DrawnNames(rows, updates, k), DrawnRefused(rows, updates, k));
  }

  lemma OriginalsHold(stopped: Rows, rollback: Rollback, rows: Rows, updates: seq<Change>, temps: map<nat, string>,
      k: nat)
    requires Stopped(stopped, rollback, rows, updates, temps, k)
    ensures HoldsRows(rollback.originals, rows, RestoreIds(rollback))
  {
    FinalIds(updates, k, DrawnNames(rows, updates, k), DrawnRefused(rows, updates, k));
    forall id | id in RestoreIds(rollback) ensures id in rollback.originals && rollback.originals[id] == rows[id] {
      UpdatedIsOriginal(rows, updates, id);
    }
  }

  /** `rollbackImportUpdates`: it reports no error exactly if no drawn alias was taken, and the rows are as they were
      before the import exactly if no row that could not be renamed is in the way of an earlier one. */
  method RollbackImportUpdates(store: ProjectStore, rollback: Rollback, ghost rows: Rows, ghost updates: seq<Change>,
                               ghost temps: map<nat, string>, ghost k: nat) returns (clean: bool)
    requires store.Valid() && store.failing.None? && Stopped(store.rows, rollback, rows, updates, temps, k)
    modifies store
    ensures store.Valid() && store.failing.None?
    ensures clean <==> RollbackClear(rows, updates, k)
    ensures store.rows == rows <==> RollbackExact(rows, updates, k)
  {
    var used := set id <- rollback.originals :: rollback.originals[id].alias;
    UsedAtFirst(rows, updates, k);
    NothingRenamedYet(rows, updates, temps, k);
    var renamed;
    used, renamed := FreeRollbackAliases(store, used, rollback.finalUpdated, rows, updates, temps, k);
    FreedIsRestorable(rows, updates, temps, k);
    IdsToRestore(old(store.rows), rollback, rows, updates, temps, k);
    OriginalsHold(old(store.rows), rollback, rows, updates, temps, k);
    var restored := RestoreOriginals(store, rollback.originals, RestoreIds(rollback), rows, temps,
                                     Freed(rows, updates, k));
    NoneBlockedIsExact(rows, updates, temps, k);
    ClearIsExact(rows, updates, k);
    clean := renamed && restored;
  }

  lemma UpdatedIsOriginal(rows: Rows, updates: seq<Change>, id: nat)
    requires (forall u <- updates :: u.projectID in rows) && Updated(updates, id)
    ensures id in Originals(rows, updates) && Originals(rows, updates)[id] == rows[id]
  {
    var i := UpdateIndex(updates, id);
    assert updates[i] in updates;
  }

  lemma FinalIds(updates: seq<Change>, k: nat, names: seq<string>, refused: set<nat>)
    requires k <= |updates| && |names| == k
    requires AllDiffer(updates)
    ensures (set p <- FinalRows(updates, k) :: p.id) == Renamed(updates, k, names, k, refused).Keys
    ensures forall p <- FinalRows(updates, k) :: Updated(updates, p.id)
  {
    forall p | p in FinalRows(updates, k)
      ensures p.id in Renamed(updates, k, names, k, refused) && Updated(updates, p.id)
    {
      var i :| 0 <= i < k && FinalRows(updates, k)[i] == p;
      RenamedHave(updates, k, names, k, refused, i);
      IsUpdated(updates, i);
    }
    forall id | id in Renamed(updates, k, names, k, refused) ensures id in (set p <- FinalRows(updates, k) :: p.id) {
      var i := RenamedAre(updates, k, names, k, refused, id);
      assert FinalRows(updates, k)[i] in FinalRows(updates, k);
    }
  }

  // ----- forwards -----

  /** Part-way through the loop that draws the temporary aliases: the first n updates have been looked at. */
  ghost predicate Drawing(rows: Rows, updates: seq<Change>, temps: map<nat, string>, used: set<string>, n: nat)
    requires n <= |updates|
  {
    && used == Reserved(rows, updates) + temps.Values
    && TempsFit(rows, updates, temps)
    && (forall id <- temps :: Updated(updates, id) && TempLike(temps[id]))
    && (forall i :: 0 <= i < n && updates[i].projectID in rows ==>
          (updates[i].projectID in temps <==> rows[updates[i].projectID].alias != updates[i].alias))
    && (forall i :: n <= i < |updates| ==> updates[i].projectID !in temps)
  }

  lemma OneMoreTemp(rows: Rows, updates: seq<Change>, temps: map<nat, string>, id: nat, alias: string)
    requires TempsFit(rows, updates, temps) && id in rows && id !in temps
    requires alias !in Reserved(rows, updates) + temps.Values && alias != ""
    ensures TempsFit(rows, updates, temps[id := alias])
  {
  }

  lemma OneMoreValue(temps: map<nat, string>, id: nat, alias: string)
    requires id !in temps
    ensures temps[id := alias].Values == temps.Values + {alias}
  {
    var temps' := temps[id := alias];
    assert temps'[id] in temps'.Values;
    forall x | x in temps.Values ensures x in temps'.Values {
      var i :| i in temps && temps[i] == x;
      assert temps'[i] == x;
    }
  }

  lemma DrawOne(rows: Rows, updates: seq<Change>, temps: map<nat, string>, used: set<string>, n: nat, alias: string)
    requires n < |updates| && Drawing(rows, updates, temps, used, n) && updates[n].projectID in rows
    requires AllDiffer(updates)
    requires rows[updates[n].projectID].alias != updates[n].alias
    requires alias !in used && alias != "" && TempLike(alias)
    ensures Drawing(rows, updates, temps[updates[n].projectID := alias], used + {alias}, n + 1)
  {
    var id := updates[n].projectID;
    OneMoreTemp(rows, updates, temps, id, alias);
    OneMoreValue(temps, id, alias);
    IsUpdated(updates, n);
    OtherIds(updates, n);
  }

  /** Draws an alias nobody has or wants for each row whose alias is to change. */
  method DrawTempAliases(byID: Rows, updates: seq<Change>) returns (temps: map<nat, string>)
    requires AllDiffer(updates)
    ensures exists used :: Drawing(byID, updates, temps, used, |updates|)
  {
    var used := Reserved(byID, updates);
    temps := map[];
    for n := 0 to |updates|
      invariant Drawing(byID, updates, temps, used, n)
    {
      var id := updates[n].projectID;
      if id in byID && byID[id].alias != updates[n].alias {
        CandidatesInjective(id, "");
        var alias := Search(TempCandidate(id), used);
        TempIsTempLike(id, FirstFree(TempCandidate(id), used, 0));
        DrawOne(byID, updates, temps, used, n, alias);
        temps, used := temps[id := alias], used + {alias};
      }
    }
  }

  /** Temporary aliases for exactly the updated rows whose alias is to change. */
  ghost predicate Drawn(rows: Rows, updates: seq<Change>, temps: map<nat, string>) {
    && RollbackState(rows, updates, temps, 0)
    && (forall v <- updates :: v.projectID in temps <==> rows[v.projectID].alias != v.alias)
  }

  /** The rows whose alias is to change. */
  function Renames(rows: Rows, updates: seq<Change>): set<nat> {
    set u <- updates | u.projectID in rows && rows[u.projectID].alias != u.alias :: u.projectID
  }

  lemma DrawnAreRenames(rows: Rows, updates: seq<Change>, temps: map<nat, string>)
    requires Drawn(rows, updates, temps)
    ensures temps.Keys == Renames(rows, updates) && |temps| == |Renames(rows, updates)|
  {
    forall id | id in temps ensures id in Renames(rows, updates) {
      var i := UpdateIndex(updates, id);
      assert updates[i] in updates;
    }
    assert |temps.Keys| == |temps|;
  }

  /** Part-way through the temporary renames: `done` are those made for the first n updates. */
  ghost predicate TempsGiven(now: Rows, rows: Rows, updates: seq<Change>, temps: map<nat, string>,
      done: map<nat, string>, n: nat)
    requires n <= |updates|
  {
    && now == Stage(rows, done, map[])
    && done.Keys <= temps.Keys && (forall i <- done :: done[i] == temps[i])
    && (forall i :: 0 <= i < n && updates[i].projectID in temps ==> updates[i].projectID in done)
    && (forall i :: n <= i < |updates| ==> updates[i].projectID !in done)
  }

  lemma TempGiven(now: Rows, rows: Rows, updates: seq<Change>, temps: map<nat, string>, done: map<nat, string>, n: nat)
    requires n < |updates| && TempsGiven(now, rows, updates, temps, done, n)
    requires AllDiffer(updates)
    ensures
      var id := updates[n].projectID;
      if id in temps && id in rows then
        TempsGiven(now[id := rows[id].(alias := temps[id])], rows, updates, temps, done[id := temps[id]], n + 1)
      else id in temps || TempsGiven(now, rows, updates, temps, done, n + 1)
  {
    var id := updates[n].projectID;
    OtherIds(updates, n);
    if id in temps && id in rows {
      assert now[id := rows[id].(alias := temps[id])] == Stage(rows, done[id := temps[id]], map[]);
    }
  }

  /** One temporary rename. */
  method RenameToTemp(store: ProjectStore, byID: Rows, updates: seq<Change>, temps: map<nat, string>,
                      ghost done: map<nat, string>, n: nat) returns (ok: bool)
    requires store.Valid() && Drawn(byID, updates, temps) && n < |updates| && updates[n].projectID in temps
    requires TempsGiven(store.rows, byID, updates, temps, done, n)
    modifies store
    ensures store.Valid() && CallsMade(old(store.failing), store.failing, ok, if ok then 1 else 0)
    ensures !ok ==> store.rows == old(store.rows)
    ensures ok ==>
        var id := updates[n].projectID;
        TempsGiven(store.rows, byID, updates, temps, done[id := temps[id]], n + 1)
  {
    var id := updates[n].projectID;
    TempGiven(store.rows, byID, updates, temps, done, n);
    TempRenameSucceeds(byID, updates, temps, done, id);
    var result := store.UpdateProject(id, byID[id].(alias := temps[id]));
    ok := result.Ok?;
  }

  lemma FewerDone(temps: map<nat, string>, done: map<nat, string>, id: nat)
    requires done.Keys <= temps.Keys && id in temps && id !in done
    ensures |done| < |temps| && |done[id := temps[id]]| == |done| + 1
  {
    var rest := temps.Keys - {id};
    FewerAmong(done.Keys, rest);
    assert |done.Keys| == |done| && |temps.Keys| == |temps| && |rest| == |temps| - 1;
    assert done[id := temps[id]].Keys == done.Keys + {id};
    assert |done[id := temps[id]].Keys| == |done[id := temps[id]]|;
  }

  lemma {:induction false} FewerAmong(some: set<nat>, all: set<nat>)
    requires some <= all
    ensures |some| <= |all|
  {
    if some != {} {
      var id :| id in some;
      FewerAmong(some - {id}, all - {id});
    }
  }

  /** The ids of the rows renamed so far are all there, and some are still to come. */
  predicate RenamedIds(tempRenamed: seq<nat>, done: map<nat, string>, all: nat, ok: bool) {
    Among(tempRenamed) == done.Keys && (!ok ==> |done| < all)
  }

  lemma OneMoreRenamed(temps: map<nat, string>, tempRenamed: seq<nat>, done: map<nat, string>, id: nat)
    requires Among(tempRenamed) == done.Keys && done.Keys <= temps.Keys && id in temps && id !in done
    ensures |done[id := temps[id]]| == |done| + 1
    ensures RenamedIds(tempRenamed + [id], done[id := temps[id]], |temps|, true)
    ensures RenamedIds(tempRenamed, done, |temps|, false)
  {
    FewerDone(temps, done, id);
    OneMoreAmong(tempRenamed, id);
  }

  /** What holds in the first loop, with n updates looked at; `before` is the store's countdown when it began. */
  ghost predicate Freeing(store: ProjectStore, before: Option<nat>, ok: bool, byID: Rows, updates: seq<Change>,
                          temps: map<nat, string>, tempRenamed: seq<nat>, done: map<nat, string>, n: nat)
    reads store
  {
    && store.Valid() && CallsMade(before, store.failing, ok, |done|)
    && n <= |updates| && TempsGiven(store.rows, byID, updates, temps, done, n)
    && RenamedIds(tempRenamed, done, |temps|, ok)
  }

  /** A turn of the first loop for a row whose alias is to change. */
  method FreeAlias(store: ProjectStore, byID: Rows, updates: seq<Change>, temps: map<nat, string>,
                   tempRenamed: seq<nat>, ghost done: map<nat, string>, n: nat, ghost before: Option<nat>)
    returns (ok: bool)
    requires Drawn(byID, updates, temps) && n < |updates|
    requires Freeing(store, before, true, byID, updates, temps, tempRenamed, done, n)
    requires updates[n].projectID in temps
    modifies store
    ensures
      var id := updates[n].projectID;
      if ok then
        Freeing(store, before, ok, byID, updates, temps, tempRenamed + [id], done[id := temps[id]], n + 1)
      else Freeing(store, before, ok, byID, updates, temps, tempRenamed, done, n)
  {
    ghost var calls, middle := |done|, store.failing;
    ok := RenameToTemp(store, byID, updates, temps, done, n);
    CallsAdd(before, middle, store.failing, ok, calls, if ok then 1 else 0);
    OneMoreRenamed(temps, tempRenamed, done, updates[n].projectID);
  }

  /** One turn of the first loop. */
  method GiveTemp(store: ProjectStore, byID: Rows, updates: seq<Change>, temps: map<nat, string>, tempRenamed: seq<nat>,
                  ghost done: map<nat, string>, n: nat, ghost before: Option<nat>)
    returns (ok: bool, tempRenamed': seq<nat>, ghost done': map<nat, string>)
    requires Drawn(byID, updates, temps) && n < |updates|
    requires Freeing(store, before, true, byID, updates, temps, tempRenamed, done, n)
    modifies store
    ensures Freeing(store, before, ok, byID, updates, temps, tempRenamed', done', if ok then n + 1 else n)
  {
    ok, tempRenamed', done' := true, tempRenamed, done;
    var id := updates[n].projectID;
    if id in temps {
      ok := FreeAlias(store, byID, updates, temps, tempRenamed, done, n, before);
      if ok { tempRenamed', done' := tempRenamed + [id], done[id := temps[id]]; }
    } else {
      TempGiven(store.rows, byID, updates, temps, done, n);
    }
  }

  /** The first loop of updates: an alias that is to change makes way for the others. */
  method GiveTemps(store: ProjectStore, byID: Rows, updates: seq<Change>, temps: map<nat, string>)
    returns (ok: bool, tempRenamed: seq<nat>, ghost done: map<nat, string>, ghost n: nat)
    requires Drawn(byID, updates, temps)
    requires Freeing(store, store.failing, true, byID, updates, temps, [], map[], 0)
    modifies store
    ensures Freeing(store, old(store.failing), ok, byID, updates, temps, tempRenamed, done, n)
    ensures ok ==> done == temps
  {
    tempRenamed, done, n, ok := [], map[], 0, true;
    var i := 0;
    while ok && i < |updates|
      invariant n == i <= |updates|
      invariant Freeing(store, old(store.failing), ok, byID, updates, temps, tempRenamed, done, i)
      decreases ok, |updates| - i
    {
      ok, tempRenamed, done := GiveTemp(store, byID, updates, temps, tempRenamed, done, i, old(store.failing));
      if ok { i, n := i + 1, n + 1; }
    }
    if ok { AllGiven(updates, temps, done); }
  }

  lemma AllGiven(updates: seq<Change>, temps: map<nat, string>, done: map<nat, string>)
    requires forall id <- temps :: Updated(updates, id)
    requires done.Keys <= temps.Keys && (forall i <- done :: done[i] == temps[i])
    requires forall i :: 0 <= i < |updates| && updates[i].projectID in temps ==> updates[i].projectID in done
    ensures done == temps
  {
    forall id | id in temps ensures id in done {
      var i := UpdateIndex(updates, id);
    }
  }

  /** Part-way through the final updates. */
  ghost predicate FinalsGiven(now: Rows, rows: Rows, updates: seq<Change>, temps: map<nat, string>,
                              finalUpdated: seq<Project>) {
    && |finalUpdated| <= |updates| && finalUpdated == FinalRows(updates, |finalUpdated|)
    && now == Stage(rows, temps, Finals(updates, |finalUpdated|))
  }

  /** One turn of the second loop. */
  method GiveFinal(store: ProjectStore, change: Change, finalUpdated: seq<Project>, ghost rows: Rows,
                   ghost updates: seq<Change>, ghost temps: map<nat, string>)
    returns (ok: bool, finalUpdated': seq<Project>)
    requires store.Valid() && Drawn(rows, updates, temps) && FinalsGiven(store.rows, rows, updates, temps, finalUpdated)
    requires |finalUpdated| < |updates| && change == updates[|finalUpdated|]
    modifies store
    ensures store.Valid() && CallsMade(old(store.failing), store.failing, ok, if ok then 1 else 0)
    ensures FinalsGiven(store.rows, rows, updates, temps, finalUpdated')
    ensures if ok then |finalUpdated'| == |finalUpdated| + 1 else finalUpdated' == finalUpdated
  {
    ghost var n := |finalUpdated|;
    FinalUpdateSucceeds(rows, updates, temps, n);
    assert change in updates;
    FinalGiven(rows, updates, temps, n);
    var result := store.UpdateProject(change.projectID, FromChange(change));
    ok := result.Ok?;
    finalUpdated' := if ok then finalUpdated + [result.value] else finalUpdated;
  }

  /** The second loop of updates: each row gets its final content. */
  method GiveFinals(store: ProjectStore, updates: seq<Change>, ghost rows: Rows, ghost temps: map<nat, string>)
    returns (ok: bool, finalUpdated: seq<Project>)
    requires store.Valid() && Drawn(rows, updates, temps) && store.rows == Stage(rows, temps, map[])
    modifies store
    ensures store.Valid() && CallsMade(old(store.failing), store.failing, ok, |finalUpdated|)
    ensures FinalsGiven(store.rows, rows, updates, temps, finalUpdated)
    ensures if ok then |finalUpdated| == |updates| else |finalUpdated| < |updates|
  {
    finalUpdated, ok := [], true;
    while ok && |finalUpdated| < |updates|
      invariant store.Valid() && CallsMade(old(store.failing), store.failing, ok, |finalUpdated|)
      invariant FinalsGiven(store.rows, rows, updates, temps, finalUpdated) && (!ok ==> |finalUpdated| < |updates|)
      decreases ok, |updates| - |finalUpdated|
    {
      ok, finalUpdated := GiveFinal(store, updates[|finalUpdated|], finalUpdated, rows, updates, temps);
    }
  }

  lemma FinalGiven(rows: Rows, updates: seq<Change>, temps: map<nat, string>, n: nat)
    requires n < |updates| && updates[n].projectID in rows
    ensures
      var p := FromChange(updates[n]);
      Stage(rows, temps, Finals(updates, n))[p.id := p] == Stage(rows, temps, Finals(updates, n + 1))
    ensures FinalRows(updates, n + 1) == FinalRows(updates, n) + [FromChange(updates[n])]
  {
  }

  // ----- the whole import -----

  /** The loop that picks the changes of one kind. */
  method Select(changes: seq<Change>, action: ChangeAction) returns (selected: seq<Change>)
    ensures selected == OfAction(changes, action)
  {
    selected := [];
    for i := 0 to |changes|
      invariant selected == OfAction(changes[..i], action)
    {
      assert changes[..i + 1][..i] == changes[..i];
      if changes[i].action == action { selected := selected + [changes[i]]; }
    }
    assert changes[..|changes|] == changes;
  }

  method ById(projects: seq<Project>, ghost rows: Rows) returns (byID: Rows)
    requires Sound(rows) && Lists(projects, rows)
    ensures byID == rows
  {
    byID := map[];
    for i := 0 to |projects|
      invariant forall id <- byID :: id in rows && byID[id] == rows[id]
      invariant forall j :: 0 <= j < i ==> projects[j].id in byID
    {
      byID := byID[projects[i].id := projects[i]];
    }
    forall id | id in rows ensures id in byID {
      var j :| 0 <= j < |projects| && projects[j] == rows[id];
    }
  }

  /** The calls of an update phase: a temporary rename of each row whose alias is to change, and all the updates. */
  function UpdateCalls(rows: Rows, updates: seq<Change>): nat { |Renames(rows, updates)| + |updates| }

  /** The final updates made before the call that fails. */
  function FinalsMade(rows: Rows, updates: seq<Change>, failing: nat): (k: nat)
    ensures k <= |updates|
  {
    if failing < |Renames(rows, updates)| then 0
    else if failing < UpdateCalls(rows, updates) then failing - |Renames(rows, updates)| else |updates|
  }

  /** Whether the update phase went through, and what the store's countdown and the number k of final updates made
      say about the call that failed. */
  ghost predicate PhaseDone(before: Option<nat>, after: Option<nat>, done: bool, rows: Rows, updates: seq<Change>,
                            k: nat)
  {
    if done then CallsMade(before, after, true, UpdateCalls(rows, updates)) && k == |updates|
    else before.Some? && before.value < UpdateCalls(rows, updates) && after.None?
         && k == FinalsMade(rows, updates, before.value)
  }

  lemma TempFailed(before: Option<nat>, after: Option<nat>, rows: Rows, updates: seq<Change>, calls: nat)
    requires CallsMade(before, after, false, calls) && calls < |Renames(rows, updates)|
    ensures PhaseDone(before, after, false, rows, updates, 0)
  {
  }

  lemma FinalsCounted(before: Option<nat>, middle: Option<nat>, after: Option<nat>, done: bool, rows: Rows,
                      updates: seq<Change>, k: nat)
    requires CallsMade(before, middle, true, |Renames(rows, updates)|) && CallsMade(middle, after, done, k)
    requires if done then k == |updates| else k < |updates|
    ensures PhaseDone(before, after, done, rows, updates, k)
  {
  }

  /** `applyImportUpdates`: the update phase either goes through, or it stops having given k rows their final
      content and, if it is to roll back, undoes that as far as the rollback can. */
  method ApplyImportUpdates(store: ProjectStore, updates: seq<Change>, byID: Rows, rollbackOnError: bool)
    returns (outcome: UpdatesOutcome, ghost k: nat, ghost temps: map<nat, string>)
    requires store.Valid() && store.rows == byID && UpdatesFit(byID, updates)
    modifies store
    ensures store.Valid() && k <= |updates|
    ensures PhaseDone(old(store.failing), store.failing, outcome.UpdatesDone?, byID, updates, k)
    ensures outcome.UpdatesDone? ==> Stopped(store.rows, outcome.rollback, byID, updates, temps, k)
    ensures outcome.UpdatesFailed? ==> RolledBack(store.rows, byID, updates, k, rollbackOnError, outcome.clean)
  {
    ghost var before := store.failing;
    var ok, tempRenamed;
    ghost var done, n;
    ok, tempRenamed, temps, done, n := FreeAliases(store, updates, byID);
    if ok {
      ghost var middle := store.failing;
      outcome, k := FinishUpdates(store, updates, byID, rollbackOnError, tempRenamed, temps);
      FinalsCounted(before, middle, store.failing, outcome.UpdatesDone?, byID, updates, k);
    } else {
      k := 0;
      TempFailed(before, store.failing, byID, updates, |done|);
      var clean := UndoTemps(store, rollbackOnError, tempRenamed, byID, updates, temps, done, n, before);
      outcome := UpdatesFailed(clean);
    }
  }

  /** The first half of the update phase: temporary aliases are drawn, and given to the rows whose alias is to
      change. */
  method FreeAliases(store: ProjectStore, updates: seq<Change>, byID: Rows)
    returns (ok: bool, tempRenamed: seq<nat>, ghost temps: map<nat, string>, ghost done: map<nat, string>,
             ghost n: nat)
    requires store.Valid() && store.rows == byID && UpdatesFit(byID, updates)
    modifies store
    ensures Drawn(byID, updates, temps) && |temps| == |Renames(byID, updates)|
    ensures Freeing(store, old(store.failing), ok, byID, updates, temps, tempRenamed, done, n)
    ensures ok ==> done == temps && store.rows == Stage(byID, temps, map[])
  {
    var drawn := DrawTempAliases(byID, updates);
    AllDrawn(byID, updates, drawn);
    DrawnAreRenames(byID, updates, drawn);
    NothingGivenYet(store, byID, updates, drawn);
    ok, tempRenamed, done, n := GiveTemps(store, byID, updates, drawn);
    temps := drawn;
  }

  /** What a failing temporary rename undoes: the renames before it. */
  method UndoTemps(store: ProjectStore, rollbackOnError: bool, tempRenamed: seq<nat>, byID: Rows, updates: seq<Change>,
                   ghost temps: map<nat, string>, ghost done: map<nat, string>, ghost n: nat,
                   ghost before: Option<nat>) returns (clean: bool)
    requires Drawn(byID, updates, temps)
    requires Freeing(store, before, false, byID, updates, temps, tempRenamed, done, n)
    modifies store
    ensures store.Valid() && store.failing.None?
    ensures RolledBack(store.rows, byID, updates, 0, rollbackOnError, clean)
  {
    var rollback := Rollback(Originals(byID, updates), tempRenamed, []);
    GivenIsStopped(store.rows, rollback, byID, updates, temps, done, n);
    clean := RollbackIf(rollbackOnError, store, rollback, byID, updates, done, 0);
  }

  /** The second half of the update phase: the rows get their final content. */
  method FinishUpdates(store: ProjectStore, updates: seq<Change>, byID: Rows, rollbackOnError: bool,
                       tempRenamed: seq<nat>, ghost temps: map<nat, string>)
    returns (outcome: UpdatesOutcome, ghost k: nat)
    requires store.Valid() && Drawn(byID, updates, temps) && store.rows == Stage(byID, temps, map[])
    requires Among(tempRenamed) == temps.Keys
    modifies store
    ensures store.Valid() && k <= |updates| && CallsMade(old(store.failing), store.failing, outcome.UpdatesDone?, k)
    ensures outcome.UpdatesDone? ==> k == |updates| && Stopped(store.rows, outcome.rollback, byID, updates, temps, k)
    ensures outcome.UpdatesFailed? ==>
        k < |updates| && RolledBack(store.rows, byID, updates, k, rollbackOnError, outcome.clean)
  {
    var ok, finalUpdated := GiveFinals(store, updates, byID, temps);
    k := |finalUpdated|;
    var rollback := Rollback(Originals(byID, updates), tempRenamed, finalUpdated);
    if !ok {
      var clean := RollbackIf(rollbackOnError, store, rollback, byID, updates, temps, k);
      return UpdatesFailed(clean), k;
    }
    outcome := UpdatesDone(rollback);
  }

  /** A rollback after k final updates: clean exactly if no drawn alias was taken, and when nothing has changed. */
  ghost predicate RolledBack(now: Rows, rows: Rows, updates: seq<Change>, k: nat, rollbackOnError: bool, clean: bool)
    requires k <= |updates| && forall u <- updates :: u.projectID in rows
  {
    rollbackOnError ==>
      (clean <==> RollbackClear(rows, updates, k)) && (now == rows <==> RollbackExact(rows, updates, k))
  }

  method RollbackIf(rollbackOnError: bool, store: ProjectStore, rollback: Rollback, ghost rows: Rows,
                    ghost updates: seq<Change>, ghost temps: map<nat, string>, ghost k: nat) returns (clean: bool)
    requires store.Valid() && store.failing.None? && Stopped(store.rows, rollback, rows, updates, temps, k)
    modifies store
    ensures store.Valid() && store.failing.None? && RolledBack(store.rows, rows, updates, k, rollbackOnError, clean)
  {
    clean := false;
    if rollbackOnError { clean := RollbackImportUpdates(store, rollback, rows, updates, temps, k); }
  }

  lemma AllDrawn(rows: Rows, updates: seq<Change>, temps: map<nat, string>)
    requires Sound(rows) && UpdatesFit(rows, updates)
    requires exists used :: Drawing(rows, updates, temps, used, |updates|)
    ensures Drawn(rows, updates, temps)
  {
  }

  lemma NothingGivenYet(store: ProjectStore, byID: Rows, updates: seq<Change>, temps: map<nat, string>)
    requires store.Valid() && store.rows == byID
    ensures Freeing(store, store.failing, true, byID, updates, temps, [], map[], 0)
  {
    NothingLeft(byID);
  }

  lemma GivenIsStopped(now: Rows, rollback: Rollback, rows: Rows, updates: seq<Change>, temps: map<nat, string>,
                       done: map<nat, string>, n: nat)
    requires Drawn(rows, updates, temps) && n <= |updates| && TempsGiven(now, rows, updates, temps, done, n)
    requires rollback.originals == Originals(rows, updates) && rollback.finalUpdated == []
    requires Among(rollback.tempRenamed) == done.Keys
    ensures Stopped(now, rollback, rows, updates, done, 0)
  {
  }

  /** `rollbackImportAdds`: the added rows are deleted, last one first. */
  method RollbackImportAdds(store: ProjectStore, added: seq<Project>, ghost rows: Rows, ghost adds: seq<Change>)
    returns (clean: bool)
    requires store.Valid() && store.failing.None?
    requires AddedFor(rows, adds, added) && store.rows == WithAdded(rows, added)
    modifies store
    ensures store.Valid() && store.failing.None? && clean && store.rows == rows
  {
    clean := true;
    var i := |added|;
    assert added[..i] == added;
    while i > 0
      invariant 0 <= i <= |added| && store.Valid() && store.failing.None? && clean
      invariant store.rows == WithAdded(rows, added[..i])
    {
      i := i - 1;
      ThenDelete(rows, adds, added, i);
      var result := store.DeleteProject(added[i].id);
      if result.Err? { clean := false; }
    }
  }

  lemma ThenDelete(rows: Rows, adds: seq<Change>, added: seq<Project>, i: nat)
    requires AddedFor(rows, adds, added) && i < |added|
    ensures added[i].id > 0 && added[i].id in WithAdded(rows, added[..i + 1])
    ensures WithAdded(rows, added[..i + 1]) - {added[i].id} == WithAdded(rows, added[..i])
  {
    DeleteUndoesAdd(rows, adds, added[..i + 1]);
    assert added[..i + 1][..i] == added[..i];
  }

  /** One turn of the loop over the adds. */
  method AddOne(store: ProjectStore, change: Change, added: seq<Project>, ghost rows: Rows, ghost updates: seq<Change>,
                ghost adds: seq<Change>) returns (ok: bool, added': seq<Project>)
    requires store.Valid() && UpdatesFit(rows, updates) && AddsFit(rows, updates, adds)
    requires AddedFor(Overlay(rows, updates), adds, added) && store.rows == WithAdded(Overlay(rows, updates), added)
    requires |added| < |adds| && change == adds[|added|]
    modifies store
    ensures store.Valid() && CallsMade(old(store.failing), store.failing, ok, if ok then 1 else 0)
    ensures AddedFor(Overlay(rows, updates), adds, added') && store.rows == WithAdded(Overlay(rows, updates), added')
    ensures if ok then |added'| == |added| + 1 else added' == added
  {
    AddSucceeds(rows, updates, adds, added);
    AddedKeys(Overlay(rows, updates), added);
    var result := store.AddProject(FromChange(change));
    ok := result.Ok?;
    added' := if ok then added + [result.value] else added;
    if ok { OneMoreAdded(Overlay(rows, updates), adds, added, result.value); }
  }

  /** The loop over the adds. */
  method AddAll(store: ProjectStore, adds: seq<Change>, ghost rows: Rows, ghost updates: seq<Change>)
    returns (ok: bool, added: seq<Project>)
    requires store.Valid() && UpdatesFit(rows, updates) && AddsFit(rows, updates, adds)
    requires store.rows == Overlay(rows, updates)
    modifies store
    ensures store.Valid() && CallsMade(old(store.failing), store.failing, ok, |added|)
    ensures AddedFor(Overlay(rows, updates), adds, added) && store.rows == WithAdded(Overlay(rows, updates), added)
    ensures if ok then |added| == |adds| else |added| < |adds|
  {
    ok, added := true, [];
    while ok && |added| < |adds|
      invariant store.Valid() && CallsMade(old(store.failing), store.failing, ok, |added|)
      invariant |added| <= |adds| && (!ok ==> |added| < |adds|)
      invariant AddedFor(Overlay(rows, updates), adds, added) && store.rows == WithAdded(Overlay(rows, updates), added)
      decreases ok, |adds| - |added|
    {
      ok, added := AddOne(store, adds[|added|], added, rows, updates, adds);
    }
  }

  lemma OneMoreAdded(rows: Rows, adds: seq<Change>, added: seq<Project>, p: Project)
    requires AddedFor(rows, adds, added) && |added| < |adds|
    requires p.id > 0 && p.id !in rows && p == FromChange(adds[|added|]).(id := p.id)
    requires forall i :: 0 <= i < |added| ==> added[i].id != p.id
    ensures AddedFor(rows, adds, added + [p]) && WithAdded(rows, added + [p]) == WithAdded(rows, added)[p.id := p]
  {
  }

  lemma {:induction false} AddedKeys(rows: Rows, added: seq<Project>)
    ensures rows.Keys <= WithAdded(rows, added).Keys
    ensures forall i :: 0 <= i < |added| ==> added[i].id in WithAdded(rows, added)
  {
    if added != [] { AddedKeys(rows, added[..|added| - 1]); }
  }

  /** What an import that went through makes of the table: the updated rows replaced, and the adds as new rows. */
  ghost predicate Applied(now: Rows, rows: Rows, changes: seq<Change>, added: seq<Project>) {
    var updates, adds := OfAction(changes, Update), OfAction(changes, Add);
    && now == WithAdded(Overlay(rows, updates), added)
    && AddedFor(Overlay(rows, updates), adds, added) && |added| == |adds|
  }

  /** What the planner promises of a plan without conflicts. */
  ghost predicate PlanFits(rows: Rows, changes: seq<Change>) {
    var updates, adds := OfAction(changes, Update), OfAction(changes, Add);
    Sound(rows) && UpdatesFit(rows, updates) && AddsFit(rows, updates, adds)
  }

  /** The calls of an import in which none fails. */
  function Calls(rows: Rows, changes: seq<Change>): nat {
    UpdateCalls(rows, OfAction(changes, Update)) + |OfAction(changes, Add)|
  }

  /** What a failing add undoes: the adds before it, and then all the updates. */
  method UndoAll(store: ProjectStore, added: seq<Project>, rollback: Rollback, ghost rows: Rows,
                 ghost updates: seq<Change>, ghost temps: map<nat, string>, ghost adds: seq<Change>)
    returns (clean: bool)
    requires store.Valid() && store.failing.None?
    requires Stopped(Overlay(rows, updates), rollback, rows, updates, temps, |updates|)
    requires AddedFor(Overlay(rows, updates), adds, added) && store.rows == WithAdded(Overlay(rows, updates), added)
    modifies store
    ensures store.Valid() && store.failing.None? && RolledBack(store.rows, rows, updates, |updates|, true, clean)
  {
    var removed := RollbackImportAdds(store, added, Overlay(rows, updates), adds);
    var restored := RollbackImportUpdates(store, rollback, rows, updates, temps, |updates|);
    clean := removed && restored;
  }

  /** The adds, and what is undone when one fails. */
  method AddOrUndo(store: ProjectStore, adds: seq<Change>, rollback: Rollback, rollbackOnError: bool, ghost rows: Rows,
                   ghost updates: seq<Change>, ghost temps: map<nat, string>)
    returns (ok: bool, added: seq<Project>, clean: bool)
    requires store.Valid() && UpdatesFit(rows, updates) && AddsFit(rows, updates, adds)
    requires store.rows == Overlay(rows, updates)
    requires Stopped(store.rows, rollback, rows, updates, temps, |updates|)
    modifies store
    ensures store.Valid() && (ok <==> Lasts(old(store.failing), |adds|))
    ensures ok ==> AddedFor(Overlay(rows, updates), adds, added) && |added| == |adds|
    ensures ok ==> store.rows == WithAdded(Overlay(rows, updates), added)
    ensures !ok ==> RolledBack(store.rows, rows, updates, |updates|, rollbackOnError, clean)
  {
    clean := false;
    ok, added := AddAll(store, adds, rows, updates);
    if !ok && rollbackOnError { clean := UndoAll(store, added, rollback, rows, updates, temps, adds); }
  }

  /** `applyImportChanges`: with no failing call, everything is applied; after a failing call the rows are as they were
      exactly if the rollback of the k updates made by then is exact. */
  method ApplyImportChanges(store: ProjectStore, changes: seq<Change>, projects: seq<Project>, rollbackOnError: bool)
    returns (outcome: ImportOutcome, ghost k: nat)
    requires store.Valid() && Lists(projects, store.rows) && PlanFits(store.rows, changes)
    modifies store
    ensures store.Valid() && (outcome.Imported? <==> Lasts(old(store.failing), Calls(old(store.rows), changes)))
    ensures outcome.Imported? ==> Applied(store.rows, old(store.rows), changes, outcome.added)
    ensures k <= |OfAction(changes, Update)| && !outcome.Refused?
    ensures outcome.Failed? ==> k == FinalsMade(old(store.rows), OfAction(changes, Update), old(store.failing).value)
    ensures outcome.Failed? ==>
        RolledBack(store.rows, old(store.rows), OfAction(changes, Update), k, rollbackOnError, outcome.clean)
  {
    ghost var rows := store.rows;
    var byID := ById(projects, rows);
    var updates := Select(changes, Update);
    var done;
    ghost var temps;
    done, k, temps := ApplyImportUpdates(store, updates, byID, rollbackOnError);
    if done.UpdatesFailed? { return Failed(done.clean), k; }
    AllUpdated(store.rows, done.rollback, rows, updates, temps);
    var adds := Select(changes, Add);
    var ok, added, clean := AddOrUndo(store, adds, done.rollback, rollbackOnError, rows, updates, temps);
    outcome := if ok then Imported(done.rollback.finalUpdated, added) else Failed(clean);
  }

  /** Once all updates are made, no temporary alias is left. */
  lemma AllUpdated(now: Rows, rollback: Rollback, rows: Rows, updates: seq<Change>, temps: map<nat, string>)
    requires RollbackState(rows, updates, temps, |updates|)
    ensures Stage(rows, temps, Finals(updates, |updates|)) == Overlay(rows, updates)
    ensures Stopped(now, rollback, rows, updates, temps, |updates|) ==> now == Overlay(rows, updates)
  {
    OverlayHidesTemps(rows, updates, temps);
  }

  /** `WithTransaction` around an import: it ends with all that the import does, or with the rows it began with. */
  method InTransaction(store: ProjectStore, changes: seq<Change>, projects: seq<Project>)
    returns (outcome: ImportOutcome)
    requires store.Valid() && Lists(projects, store.rows) && PlanFits(store.rows, changes)
    modifies store
    ensures store.Valid() && !outcome.Refused?
    ensures outcome.Imported? <==> Lasts(old(store.failing), Calls(old(store.rows), changes))
    ensures if outcome.Imported? then Applied(store.rows, old(store.rows), changes, outcome.added)
            else store.rows == old(store.rows)
  {
    var start := store.rows;
    ghost var k;
    outcome, k := ApplyImportChanges(store, changes, projects, false);
    if outcome.Failed? { store.Restore(start); }
  }

  /** `ApplyImportPlan`: a conflict stops it before anything changes; inside a transaction a failure undoes
      everything, and otherwise the rollback does, exactly if it is exact. */
  method ApplyImportPlan(store: ProjectStore, changes: seq<Change>, projects: seq<Project>, transactional: bool)
    returns (outcome: ImportOutcome, ghost k: nat)
    requires store.Valid() && Lists(projects, store.rows)
    requires (forall c <- changes :: c.action != Conflict) ==> PlanFits(store.rows, changes)
    modifies store
    ensures store.Valid() && k <= |OfAction(changes, Update)|
    ensures outcome.Refused? <==> exists c <- changes :: c.action == Conflict
    ensures outcome.Imported? <==> !outcome.Refused? && Lasts(old(store.failing), Calls(old(store.rows), changes))
    ensures outcome.Failed? ==> k == FinalsMade(old(store.rows), OfAction(changes, Update), old(store.failing).value)
    ensures outcome.Imported? ==> Applied(store.rows, old(store.rows), changes, outcome.added)
    ensures outcome.Refused? || (outcome.Failed? && transactional) ==> store.rows == old(store.rows)
    ensures outcome.Failed? && !transactional ==>
        RolledBack(store.rows, old(store.rows), OfAction(changes, Update), k, true, outcome.clean)
  {
    for i := 0 to |changes|
      invariant forall j :: 0 <= j < i ==> changes[j].action != Conflict
    {
      if changes[i].action == Conflict { return Refused, 0; }
    }
    if transactional {
      outcome := InTransaction(store, changes, projects);
      k := if outcome.Imported? then 0
           else FinalsMade(old(store.rows), OfAction(changes, Update), old(store.failing).value);
    } else {
      outcome, k := ApplyImportChanges(store, changes, projects, true);
    }
  }
}
