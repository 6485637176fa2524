/** What an import leaves in the project table part-way, forwards and while it is rolled back. */
module ImportStages {
  import opened Paths
  import opened Names
  import opened Projects
  import opened Manifest

  // ----- plans that fit a registry -----

  function OfAction(changes: seq<Change>, action: ChangeAction): (r: seq<Change>)
    ensures forall c <- r :: c in changes && c.action == action
    ensures forall c <- changes :: c.action == action ==> c in r
  {
    if changes == [] then [] else
      var last := changes[|changes| - 1];
      OfAction(changes[..|changes| - 1], action) + (if last.action == action then [last] else [])
  }

  predicate Filled(c: Change) {
    c.alias != "" && c.identity != "" && c.cloneURL != "" && c.localPath.Some? && c.canonicalPath.Some?
  }

  /** Whether one of the updates is of this row. */
  predicate Updated(updates: seq<Change>, id: nat) {
    updates != [] &&
    (updates[|updates| - 1].projectID == id || Updated(updates[..|updates| - 1], id))
  }

  lemma {:induction false} UpdateIndex(updates: seq<Change>, id: nat) returns (i: nat)
    requires Updated(updates, id)
    ensures i < |updates| && updates[i].projectID == id
  {
    i := |updates| - 1;
    if updates[i].projectID != id { i := UpdateIndex(updates[..i], id); }
  }

  lemma {:induction false} IsUpdated(updates: seq<Change>, i: nat)
    requires i < |updates|
    ensures Updated(updates, updates[i].projectID)
  {
    if i < |updates| - 1 { IsUpdated(updates[..|updates| - 1], i); }
  }

  predicate Differ(u: Change, v: Change) { u.projectID != v.projectID && u.alias != v.alias }

  ghost predicate AllDiffer(updates: seq<Change>) {
    forall i, j {:trigger Differ(updates[i], updates[j])} :: 0 <= i < j < |updates| ==> Differ(updates[i], updates[j])
  }

  lemma OtherIds(updates: seq<Change>, n: nat)
    requires AllDiffer(updates) && n < |updates|
    ensures forall i :: 0 <= i < |updates| && i != n ==> updates[i].projectID != updates[n].projectID
  {
    forall i | 0 <= i < |updates| && i != n ensures updates[i].projectID != updates[n].projectID {
      if i < n { assert Differ(updates[i], updates[n]); } else { assert Differ(updates[n], updates[i]); }
    }
  }

  function Wanted(changes: seq<Change>): set<string> { set c <- changes :: c.alias }

  /** Whoever has one of these aliases is updated. */
  ghost predicate MakeWay(rows: Rows, updates: seq<Change>, aliases: set<string>) {
    forall id {:trigger Updated(updates, id)} :: id in rows && rows[id].alias in aliases ==> Updated(updates, id)
  }

  /** Updates of different rows to different aliases, none of them an alias that a row not updated has. */
  ghost predicate UpdatesFit(rows: Rows, updates: seq<Change>) {
    && (forall u <- updates :: Filled(u) && u.projectID in rows && rows[u.projectID].remote == u.identity)
    && AllDiffer(updates)
    && MakeWay(rows, updates, Wanted(updates))
  }

  /** Adds of different new identities under different aliases, none of them taken once the updates are done. */
  ghost predicate AddsFit(rows: Rows, updates: seq<Change>, adds: seq<Change>) {
    && (forall a <- adds :: Filled(a) && (forall id <- rows :: rows[id].remote != a.identity))
    && (forall i, j :: 0 <= i < j < |adds| ==> adds[i].identity != adds[j].identity && adds[i].alias != adds[j].alias)
    && Wanted(adds) !! Wanted(updates)
    && MakeWay(rows, updates, Wanted(adds))
  }

  // ----- the registry part-way through -----

  /** Rows given their final content, rows under a temporary alias, and the others as they were. */
  function Stage(rows: Rows, temps: map<nat, string>, finals: map<nat, Project>): Rows {
    map id <- rows :: if id in finals then finals[id] else if id in temps then rows[id].(alias := temps[id])
        else rows[id]
  }

  function Aliases(rows: Rows): set<string> { set id <- rows :: rows[id].alias }

  /** The aliases no temporary alias may be: `usedAliases` before the first one is drawn. */
  function Reserved(rows: Rows, updates: seq<Change>): set<string> { Aliases(rows) + Wanted(updates) }

  ghost predicate TempsFit(rows: Rows, updates: seq<Change>, temps: map<nat, string>) {
    && (forall id <- temps :: id in rows && temps[id] != "" && temps[id] !in Reserved(rows, updates))
    && (forall i, j :: i in temps && j in temps && i != j ==> temps[i] != temps[j])
  }

  /** The final content of the rows of the first n updates. */
  function Finals(updates: seq<Change>, n: nat): (m: map<nat, Project>)
    requires n <= |updates|
  {
    if n == 0 then map[] else Finals(updates, n - 1)[updates[n - 1].projectID := FromChange(updates[n - 1])]
  }

  lemma {:induction false} FinalsAre(updates: seq<Change>, n: nat, id: nat) returns (i: nat)
    requires n <= |updates| && id in Finals(updates, n)
    ensures i < n && updates[i].projectID == id && Finals(updates, n)[id] == FromChange(updates[i])
  {
    if updates[n - 1].projectID == id { return n - 1; }
    i := FinalsAre(updates, n - 1, id);
  }

  lemma {:induction false} FinalsHave(updates: seq<Change>, n: nat, i: nat)
    requires i < n <= |updates|
    ensures updates[i].projectID in Finals(updates, n)
  {
    if i < n - 1 { FinalsHave(updates, n - 1, i); }
  }

  lemma UpdateSucceeds(rows: Rows, p: Project)
    requires Complete(p) && p.id in rows
    requires forall other <- rows :: other != p.id ==> rows[other].alias != p.alias && rows[other].remote != p.remote
    ensures TryUpdate(rows, p.id, p) == Ok(p)
  {
  }

  /** Giving a row an unused temporary alias succeeds. */
  lemma TempRenameSucceeds(rows: Rows, updates: seq<Change>, temps: map<nat, string>, done: map<nat, string>, id: nat)
    requires Sound(rows) && TempsFit(rows, updates, temps)
    requires done.Keys <= temps.Keys && (forall i <- done :: done[i] == temps[i])
    requires id in temps && id !in done
    ensures TryUpdate(Stage(rows, done, map[]), id, rows[id].(alias := temps[id])) == Ok(rows[id].(alias := temps[id]))
  {
    var stage := Stage(rows, done, map[]);
    forall other | other in stage && other != id
      ensures stage[other].alias != temps[id] && stage[other].remote != rows[id].remote
    {
      assert rows[other].alias in Aliases(rows) && Apart(rows[other], rows[id]);
    }
    UpdateSucceeds(stage, rows[id].(alias := temps[id]));
  }

  lemma SameAliasSameUpdate(rows: Rows, updates: seq<Change>, u: Change, v: Change)
    requires UpdatesFit(rows, updates) && u in updates && v in updates
    ensures u.alias == v.alias || u.projectID == v.projectID ==> u == v
  {
    var i :| 0 <= i < |updates| && updates[i] == u;
    var j :| 0 <= j < |updates| && updates[j] == v;
    if i < j { assert Differ(updates[i], updates[j]); }
    if j < i { assert Differ(updates[j], updates[i]); }
  }

  lemma FinalAliasIsFree(rows: Rows, updates: seq<Change>, temps: map<nat, string>, n: nat, u: Change, other: nat)
    requires Unique(rows) && UpdatesFit(rows, updates) && n <= |updates|
    requires other in temps ==> temps[other] !in Reserved(rows, updates)
    requires forall v <- updates :: v.projectID !in temps ==> rows[v.projectID].alias == v.alias
    requires u in updates && other in rows && other != u.projectID
    ensures Stage(rows, temps, Finals(updates, n))[other].alias != u.alias
    ensures Stage(rows, temps, Finals(updates, n))[other].remote != u.identity
  {
    assert Apart(rows[other], rows[u.projectID]);
    if other in Finals(updates, n) {
      var i := FinalsAre(updates, n, other);
      SameAliasSameUpdate(rows, updates, u, updates[i]);
    } else if other !in temps && rows[other].alias == u.alias {
      assert u.alias in Wanted(updates) && Updated(updates, other);
      var i := UpdateIndex(updates, other);
      SameAliasSameUpdate(rows, updates, u, updates[i]);
    }
  }

  /** Giving an updated row its final content succeeds, whatever the order the updates come in. */
  lemma FinalUpdateSucceeds(rows: Rows, updates: seq<Change>, temps: map<nat, string>, n: nat)
    requires Sound(rows) && UpdatesFit(rows, updates) && TempsFit(rows, updates, temps) && n < |updates|
    requires forall v <- updates :: v.projectID !in temps ==> rows[v.projectID].alias == v.alias
    ensures TryUpdate(Stage(rows, temps, Finals(updates, n)), updates[n].projectID, FromChange(updates[n]))
         == Ok(FromChange(updates[n]))
  {
    var u := updates[n];
    var stage := Stage(rows, temps, Finals(updates, n));
    assert u in updates;
    forall other | other in stage && other != u.projectID
      ensures stage[other].alias != u.alias && stage[other].remote != u.identity
    {
      FinalAliasIsFree(rows, updates, temps, n, u, other);
    }
    UpdateSucceeds(stage, FromChange(u));
  }

  // ----- when the rollback of k final updates meets no taken alias -----

  function OriginalAliases(rows: Rows, updates: seq<Change>): set<string>
    requires forall u <- updates :: u.projectID in rows
  {
    set u <- updates :: rows[u.projectID].alias
  }

  /** The aliases the rollback draws, one after the other, for the rows of the given ids. */
  function RollbackNames(ids: seq<nat>, used: set<string>): (names: seq<string>)
    ensures |names| == |ids|
  {
    if ids == [] then [] else
      var n := |ids| - 1;
      var earlier := RollbackNames(ids[..n], used);
      earlier + [FreeName(RollbackCandidate(ids[n]), used + (set name <- earlier))]
  }

  function Ids(updates: seq<Change>): (ids: seq<nat>)
    ensures |ids| == |updates| && forall i :: 0 <= i < |ids| ==> ids[i] == updates[i].projectID
  {
    seq(|updates|, i requires 0 <= i < |updates| => updates[i].projectID)
  }

  /** The alias drawn for the i-th of k finally updated rows is neither that of a row the import leaves alone
      nor the one a later of the k rows was given. */
  ghost predicate ClearAt(rows: Rows, updates: seq<Change>, k: nat, names: seq<string>, i: nat)
    requires i < k <= |updates| && k <= |names|
  {
    && MakeWay(rows, updates, {names[i]})
    && (forall j :: i < j < k ==> updates[j].alias != names[i])
  }

  ghost predicate RollbackClear(rows: Rows, updates: seq<Change>, k: nat)
    requires k <= |updates| && forall u <- updates :: u.projectID in rows
  {
    var names := RollbackNames(Ids(updates[..k]), OriginalAliases(rows, updates));
    forall i :: 0 <= i < k ==> ClearAt(rows, updates, k, names, i)
  }

  /** Whether the n-th rename finds its alias free, given which earlier ones were refused. */
  ghost predicate FreeAt(rows: Rows, updates: seq<Change>, k: nat, names: seq<string>, n: nat, refused: set<nat>)
    requires n < k <= |updates| && k <= |names|
  {
    && ClearAt(rows, updates, k, names, n)
    && (forall i <- refused :: i < n ==> updates[i].alias != names[n])
  }

  /** Those of the first n renames that are refused: their alias is not clear, or a refused row still has it. */
  ghost function RefusedRenames(rows: Rows, updates: seq<Change>, k: nat, names: seq<string>, n: nat)
    : (refused: set<nat>)
    requires n <= k <= |updates| && k <= |names|
    ensures forall i <- refused :: i < n
  {
    if n == 0 then {} else
      var earlier := RefusedRenames(rows, updates, k, names, n - 1);
      if FreeAt(rows, updates, k, names, n - 1, earlier) then earlier else earlier + {n - 1}
  }

  /** No rename is refused exactly if every drawn alias is clear. */
  lemma {:induction false} NoneIsRefused(rows: Rows, updates: seq<Change>, k: nat, names: seq<string>, n: nat)
    requires n <= k <= |updates| && k <= |names|
    ensures RefusedRenames(rows, updates, k, names, n) == {} <==>
            forall i :: 0 <= i < n ==> ClearAt(rows, updates, k, names, i)
  {
    if n > 0 { NoneIsRefused(rows, updates, k, names, n - 1); }
  }

  /** The content of k finally updated rows, the first n of them renamed but for those refused. */
  function Renamed(updates: seq<Change>, k: nat, names: seq<string>, n: nat, refused: set<nat>): map<nat, Project>
    requires k <= |updates| && n <= |names|
  {
    if k == 0 then map[] else
      var p := FromChange(updates[k - 1]);
      Renamed(updates, k - 1, names, n, refused)
        [p.id := if k - 1 < n && k - 1 !in refused then p.(alias := names[k - 1]) else p]
  }

  lemma {:induction false} NoneRenamed(updates: seq<Change>, k: nat, names: seq<string>)
    requires k <= |updates|
    ensures Renamed(updates, k, names, 0, {}) == Finals(updates, k)
  {
    if k > 0 { NoneRenamed(updates, k - 1, names); }
  }

  lemma {:induction false} RenamedAre(updates: seq<Change>, k: nat, names: seq<string>, n: nat, refused: set<nat>,
                                      id: nat)
    returns (i: nat)
    requires k <= |updates| && n <= |names| && id in Renamed(updates, k, names, n, refused)
    ensures i < k && updates[i].projectID == id
    ensures Renamed(updates, k, names, n, refused)[id] ==
            if i < n && i !in refused then FromChange(updates[i]).(alias := names[i]) else FromChange(updates[i])
  {
    if updates[k - 1].projectID == id { return k - 1; }
    i := RenamedAre(updates, k - 1, names, n, refused, id);
  }

  lemma {:induction false} RenamedHave(updates: seq<Change>, k: nat, names: seq<string>, n: nat, refused: set<nat>,
                                       i: nat)
    requires i < k <= |updates| && n <= |names|
    requires AllDiffer(updates)
    ensures updates[i].projectID in Renamed(updates, k, names, n, refused)
    ensures Renamed(updates, k, names, n, refused)[updates[i].projectID] ==
            if i < n && i !in refused then FromChange(updates[i]).(alias := names[i]) else FromChange(updates[i])
  {
    if i < k - 1 {
      RenamedHave(updates, k - 1, names, n, refused, i);
      assert Differ(updates[i], updates[k - 1]);
    }
  }

  lemma {:induction false} RenameOne(updates: seq<Change>, k: nat, names: seq<string>, n: nat, refused: set<nat>)
    requires n < k <= |updates| && k <= |names| && n !in refused
    requires AllDiffer(updates)
    ensures Renamed(updates, k, names, n, refused)[updates[n].projectID := FromChange(updates[n]).(alias := names[n])]
         == Renamed(updates, k, names, n + 1, refused)
  {
    if n < k - 1 {
      RenameOne(updates, k - 1, names, n, refused);
      assert Differ(updates[n], updates[k - 1]);
    } else {
      SameBelow(updates, k - 1, names, n, refused);
    }
  }

  lemma {:induction false} SameBelow(updates: seq<Change>, k: nat, names: seq<string>, n: nat, refused: set<nat>)
    requires k <= n < |names| && k <= |updates|
    ensures Renamed(updates, k, names, n, refused) == Renamed(updates, k, names, n + 1, refused)
  {
    if k > 0 { SameBelow(updates, k - 1, names, n, refused); }
  }

  lemma {:induction false} RefuseOne(updates: seq<Change>, k: nat, names: seq<string>, n: nat, refused: set<nat>)
    requires n < |names| && k <= |updates|
    ensures Renamed(updates, k, names, n, refused) == Renamed(updates, k, names, n + 1, refused + {n})
  {
    if k > 0 { RefuseOne(updates, k - 1, names, n, refused); }
  }

  /** Aliases that differ from each other, from the used ones, and from every temporary alias. */
  ghost predicate FreshNames(names: seq<string>, used: set<string>) {
    && (forall name <- names :: name !in used)
    && (forall i, j :: 0 <= i < j < |names| ==> names[i] != names[j])
    && (forall name <- names :: !TempLike(name))
  }

  lemma OneMoreFreshName(names: seq<string>, used: set<string>, name: string)
    requires FreshNames(names, used) && name !in used && name !in names
    requires !TempLike(name)
    ensures FreshNames(names + [name], used)
  {
  }

  lemma {:induction false} NamesAreFresh(ids: seq<nat>, used: set<string>)
    ensures FreshNames(RollbackNames(ids, used), used)
  {
    if ids != [] {
      var n := |ids| - 1;
      var earlier := RollbackNames(ids[..n], used);
      var taken := used + (set name <- earlier);
      var name := FreeName(RollbackCandidate(ids[n]), taken);
      NamesAreFresh(ids[..n], used);
      CandidatesInjective(ids[n], "");
      FirstFreeIsFree(RollbackCandidate(ids[n]), taken, 0);
      RollbackIsNotTempLike(ids[n], FirstFree(RollbackCandidate(ids[n]), taken, 0));
      OneMoreFreshName(earlier, used, name);
    }
  }

  /** What the rollback can find: every alias that is not a row's own is temporary, or one of the drawn names,
      or a desired one. */
  ghost predicate RollbackState(rows: Rows, updates: seq<Change>, temps: map<nat, string>, k: nat)
  {
    && Sound(rows) && UpdatesFit(rows, updates) && k <= |updates| && TempsFit(rows, updates, temps)
    && (forall id <- temps :: Updated(updates, id) && TempLike(temps[id]))
  }

  function DrawnNames(rows: Rows, updates: seq<Change>, k: nat): (names: seq<string>)
    requires k <= |updates| && forall u <- updates :: u.projectID in rows
    ensures |names| == k
  {
    RollbackNames(Ids(updates[..k]), OriginalAliases(rows, updates))
  }

  lemma OtherAliasAtRename(rows: Rows, updates: seq<Change>, temps: map<nat, string>, k: nat, names: seq<string>,
                           n: nat, refused: set<nat>, other: nat)
    requires n < k <= |updates| && |names| == k && forall u <- updates :: u.projectID in rows
    requires FreshNames(names, OriginalAliases(rows, updates)) && FreeAt(rows, updates, k, names, n, refused)
    requires other in rows && other != updates[n].projectID
    requires other in temps ==> TempLike(temps[other])
    ensures Stage(rows, temps, Renamed(updates, k, names, n, refused))[other].alias != names[n]
  {
    assert names[n] in names;
    if other in Renamed(updates, k, names, n, refused) {
      var i := RenamedAre(updates, k, names, n, refused, other);
    } else if other !in temps && Updated(updates, other) {
      var i := UpdateIndex(updates, other);
      assert updates[i] in updates;
    }
  }

  lemma TakenAtRename(rows: Rows, updates: seq<Change>, temps: map<nat, string>, k: nat, names: seq<string>, n: nat,
                      refused: set<nat>)
    requires n < k <= |updates| && |names| == k && forall u <- updates :: u.projectID in rows
    requires AllDiffer(updates)
    requires forall id <- temps :: Updated(updates, id)
    requires !FreeAt(rows, updates, k, names, n, refused)
    ensures AliasTaken(Stage(rows, temps, Renamed(updates, k, names, n, refused)), names[n], updates[n].projectID)
  {
    var finals := Renamed(updates, k, names, n, refused);
    var stage := Stage(rows, temps, finals);
    if id :| id in rows && rows[id].alias == names[n] && !Updated(updates, id) {
      if id in finals {
        var i := RenamedAre(updates, k, names, n, refused, id);
        IsUpdated(updates, i);
      }
      IsUpdated(updates, n);
      assert id in stage && stage[id] == rows[id];
    } else {
      var j :| 0 <= j < k && j != n && updates[j].alias == names[n] && (n < j || j in refused);
      RenamedHave(updates, k, names, n, refused, j);
      OtherIds(updates, n);
      assert updates[j] in updates && stage[updates[j].projectID].alias == names[n];
    }
  }

  lemma RemotesStay(rows: Rows, updates: seq<Change>, temps: map<nat, string>, k: nat,
      names: seq<string>, n: nat, refused: set<nat>, id: nat)
    requires k <= |updates| && n <= |names| && id in rows
    requires forall u <- updates :: u.projectID in rows && rows[u.projectID].remote == u.identity
    ensures Stage(rows, temps, Renamed(updates, k, names, n, refused))[id].remote == rows[id].remote
  {
    if id in Renamed(updates, k, names, n, refused) {
      var i := RenamedAre(updates, k, names, n, refused, id);
      assert updates[i] in updates;
    }
  }

  lemma FreeRenameSucceeds(rows: Rows, updates: seq<Change>, temps: map<nat, string>, k: nat, n: nat,
                           refused: set<nat>)
    requires RollbackState(rows, updates, temps, k) && n < k
    requires FreeAt(rows, updates, k, DrawnNames(rows, updates, k), n, refused)
    ensures
      var names := DrawnNames(rows, updates, k);
      var p := FromChange(updates[n]).(alias := names[n]);
      TryUpdate(Stage(rows, temps, Renamed(updates, k, names, n, refused)), p.id, p) == Ok(p)
  {
    var names := DrawnNames(rows, updates, k);
    var stage := Stage(rows, temps, Renamed(updates, k, names, n, refused));
    var p := FromChange(updates[n]).(alias := names[n]);
    assert updates[n] in updates;
    NamesAreFresh(Ids(updates[..k]), OriginalAliases(rows, updates));
    NameIsFilled(Ids(updates[..k]), OriginalAliases(rows, updates), n);
    forall other | other in stage && other != p.id
      ensures stage[other].alias != p.alias && stage[other].remote != p.remote
    {
      OtherAliasAtRename(rows, updates, temps, k, names, n, refused, other);
      RemotesStay(rows, updates, temps, k, names, n, refused, other);
      assert Apart(rows[other], rows[p.id]);
    }
    UpdateSucceeds(stage, p);
  }

  /** Renaming the n-th finally updated row succeeds exactly when its drawn alias is free. */
  lemma RenameSucceeds(rows: Rows, updates: seq<Change>, temps: map<nat, string>, k: nat, n: nat, refused: set<nat>)
    requires RollbackState(rows, updates, temps, k) && n < k
    ensures
      var names := DrawnNames(rows, updates, k);
      var p := FromChange(updates[n]).(alias := names[n]);
      var renamed := TryUpdate(Stage(rows, temps, Renamed(updates, k, names, n, refused)), p.id, p);
      if FreeAt(rows, updates, k, names, n, refused) then renamed == Ok(p) else renamed.Err?
  {
    if FreeAt(rows, updates, k, DrawnNames(rows, updates, k), n, refused) {
      FreeRenameSucceeds(rows, updates, temps, k, n, refused);
    } else {
      TakenAtRename(rows, updates, temps, k, DrawnNames(rows, updates, k), n, refused);
    }
  }

  lemma {:induction false} NameIsFilled(ids: seq<nat>, used: set<string>, n: nat)
    requires n < |ids|
    ensures RollbackNames(ids, used)[n] != ""
  {
    if n < |ids| - 1 { NameIsFilled(ids[..|ids| - 1], used, n); }
  }

  /** The originals not yet restored: their rows have a temporary alias, or the content the import gave them. */
  ghost predicate Restorable(rows: Rows, temps: map<nat, string>, finals: map<nat, Project>) {
    && Sound(rows)
    && (forall id <- temps :: id in rows && temps[id] !in Aliases(rows))
    && (forall id <- finals :: id in rows && finals[id].remote == rows[id].remote)
  }

  /** Another row not yet restored has the alias. */
  ghost predicate Occupied(finals: map<nat, Project>, id: nat, alias: string) {
    exists other <- finals :: other != id && finals[other].alias == alias
  }

  /** Restoring an original succeeds exactly if no other row still has its alias. */
  lemma RestoreSucceeds(rows: Rows, temps: map<nat, string>, finals: map<nat, Project>, id: nat)
    requires Restorable(rows, temps, finals) && id in rows
    ensures
      var restored := TryUpdate(Stage(rows, temps, finals), id, rows[id]);
      if Occupied(finals, id, rows[id].alias) then restored.Err? else restored == Ok(rows[id])
  {
    var stage := Stage(rows, temps, finals);
    if other :| other in finals && other != id && finals[other].alias == rows[id].alias {
      assert other in stage && stage[other].alias == rows[id].alias;
    } else {
      forall other | other in stage && other != id
        ensures stage[other].alias != rows[id].alias && stage[other].remote != rows[id].remote
      {
        assert Apart(rows[other], rows[id]) && rows[id].alias in Aliases(rows);
      }
      UpdateSucceeds(stage, rows[id]);
    }
  }

  lemma RestoredIsRestorable(rows: Rows, temps: map<nat, string>, finals: map<nat, Project>, id: nat)
    requires Restorable(rows, temps, finals) && id in rows
    ensures Stage(rows, temps, finals)[id := rows[id]] == Stage(rows, temps - {id}, finals - {id})
    ensures Restorable(rows, temps - {id}, finals - {id})
  {
  }

  lemma RenamedRemotes(rows: Rows, updates: seq<Change>, k: nat, names: seq<string>, refused: set<nat>, id: nat)
    requires k <= |updates| && |names| == k && id in Renamed(updates, k, names, k, refused)
    requires forall u <- updates :: u.projectID in rows && rows[u.projectID].remote == u.identity
    ensures id in rows && Renamed(updates, k, names, k, refused)[id].remote == rows[id].remote
  {
    var i := RenamedAre(updates, k, names, k, refused, id);
    assert updates[i] in updates;
  }

  ghost function DrawnRefused(rows: Rows, updates: seq<Change>, k: nat): set<nat>
    requires k <= |updates| && forall u <- updates :: u.projectID in rows
  {
    RefusedRenames(rows, updates, k, DrawnNames(rows, updates, k), k)
  }

  /** The finally updated rows when the renaming is over. */
  ghost function Freed(rows: Rows, updates: seq<Change>, k: nat): map<nat, Project>
    requires k <= |updates| && forall u <- updates :: u.projectID in rows
  {
    Renamed(updates, k, DrawnNames(rows, updates, k), k, DrawnRefused(rows, updates, k))
  }

  lemma FreedIsRestorable(rows: Rows, updates: seq<Change>, temps: map<nat, string>, k: nat)
    requires RollbackState(rows, updates, temps, k)
    ensures Restorable(rows, temps, Freed(rows, updates, k))
  {
    var finals := Freed(rows, updates, k);
    forall id | id in temps ensures temps[id] !in Aliases(rows) { assert temps[id] !in Reserved(rows, updates); }
    forall id | id in finals ensures id in rows && finals[id].remote == rows[id].remote {
      RenamedRemotes(rows, updates, k, DrawnNames(rows, updates, k), DrawnRefused(rows, updates, k), id);
    }
  }

  // ----- when the rollback restores every row -----

  /** A row that could not be renamed comes after the row whose old alias it has; rows are restored in the order of
      their ids. */
  ghost predicate RollbackExact(rows: Rows, updates: seq<Change>, k: nat)
    requires k <= |updates| && forall u <- updates :: u.projectID in rows
  {
    forall n <- DrawnRefused(rows, updates, k), id <- rows ::
      id < updates[n].projectID ==> rows[id].alias != updates[n].alias
  }

  /** A later row still has the alias that is to be restored. */
  ghost predicate BlockedBy(rows: Rows, finals: map<nat, Project>, id: nat, other: nat) {
    id in rows && other in finals && id < other && finals[other].alias == rows[id].alias
  }

  ghost predicate NoneBlocked(rows: Rows, finals: map<nat, Project>, ids: set<nat>) {
    forall id <- ids, other <- finals :: !BlockedBy(rows, finals, id, other)
  }

  lemma BlockedIsRefused(rows: Rows, updates: seq<Change>, temps: map<nat, string>, k: nat, id: nat, other: nat)
    returns (n: nat)
    requires RollbackState(rows, updates, temps, k) && Updated(updates, id)
    requires BlockedBy(rows, Freed(rows, updates, k), id, other)
    ensures n in DrawnRefused(rows, updates, k) && updates[n].projectID == other
    ensures updates[n].alias == rows[id].alias
  {
    var names := DrawnNames(rows, updates, k);
    NamesAreFresh(Ids(updates[..k]), OriginalAliases(rows, updates));
    n := RenamedAre(updates, k, names, k, DrawnRefused(rows, updates, k), other);
    var i := UpdateIndex(updates, id);
    assert updates[i] in updates && names[n] in names;
  }

  lemma RefusedBlocks(rows: Rows, updates: seq<Change>, temps: map<nat, string>, k: nat, n: nat, id: nat)
    requires RollbackState(rows, updates, temps, k) && n in DrawnRefused(rows, updates, k)
    requires forall u <- updates :: u.projectID !in temps ==> rows[u.projectID].alias == u.alias
    requires id in rows && id < updates[n].projectID && rows[id].alias == updates[n].alias
    ensures id in temps && BlockedBy(rows, Freed(rows, updates, k), id, updates[n].projectID)
  {
    RenamedHave(updates, k, DrawnNames(rows, updates, k), k, DrawnRefused(rows, updates, k), n);
    assert updates[n] in updates && updates[n].alias in Wanted(updates) && Updated(updates, id);
    var i := UpdateIndex(updates, id);
    assert updates[i] in updates;
    SameAliasSameUpdate(rows, updates, updates[i], updates[n]);
  }

  /** Every original can be restored exactly if the rollback is exact. */
  lemma NoneBlockedIsExact(rows: Rows, updates: seq<Change>, temps: map<nat, string>, k: nat)
    requires RollbackState(rows, updates, temps, k)
    requires k > 0 ==> forall u <- updates :: u.projectID !in temps ==> rows[u.projectID].alias == u.alias
    ensures NoneBlocked(rows, Freed(rows, updates, k), temps.Keys + Freed(rows, updates, k).Keys) <==>
            RollbackExact(rows, updates, k)
  {
    var finals, refused := Freed(rows, updates, k), DrawnRefused(rows, updates, k);
    if RollbackExact(rows, updates, k) {
      forall id, other | id in temps.Keys + finals.Keys && other in finals
        ensures !BlockedBy(rows, finals, id, other)
      {
        if BlockedBy(rows, finals, id, other) {
          if id in finals {
            var i := RenamedAre(updates, k, DrawnNames(rows, updates, k), k, refused, id);
            IsUpdated(updates, i);
          }
          var n := BlockedIsRefused(rows, updates, temps, k, id, other);
        }
      }
    } else {
      var n, id :| n in refused && id in rows && id < updates[n].projectID && rows[id].alias == updates[n].alias;
      RefusedBlocks(rows, updates, temps, k, n, id);
    }
  }

  /** A rollback whose aliases are clear is exact. */
  lemma ClearIsExact(rows: Rows, updates: seq<Change>, k: nat)
    requires k <= |updates| && forall u <- updates :: u.projectID in rows
    ensures RollbackClear(rows, updates, k) <==> DrawnRefused(rows, updates, k) == {}
    ensures RollbackClear(rows, updates, k) ==> RollbackExact(rows, updates, k)
  {
    NoneIsRefused(rows, updates, k, DrawnNames(rows, updates, k), k);
  }

  lemma NothingLeft(rows: Rows)
    ensures Stage(rows, map[], map[]) == rows
  {
  }

  lemma {:induction false} DrawnOneByOne(ids: seq<nat>, used: set<string>, n: nat)
    requires n < |ids|
    ensures
      var names := RollbackNames(ids, used);
      && names[..n] == RollbackNames(ids[..n], used)
      && names[n] == FreeName(RollbackCandidate(ids[n]), used + (set name <- names[..n]))
  {
    if n < |ids| - 1 {
      var shorter := ids[..|ids| - 1];
      DrawnOneByOne(shorter, used, n);
      assert shorter[..n] == ids[..n];
      assert RollbackNames(ids, used)[..n] == RollbackNames(shorter, used)[..n];
    } else {
      assert ids[..n] == ids[..|ids| - 1];
    }
  }

  // ----- the adds -----

  function WithAdded(rows: Rows, added: seq<Project>): Rows {
    if added == [] then rows else
      var last := added[|added| - 1];
      WithAdded(rows, added[..|added| - 1])[last.id := last]
  }

  /** The old rows, with the updated ones replaced. */
  function Overlay(rows: Rows, updates: seq<Change>): Rows { Stage(rows, map[], Finals(updates, |updates|)) }

  ghost predicate AddedFor(rows: Rows, adds: seq<Change>, added: seq<Project>) {
    && |added| <= |adds|
    && (forall i :: 0 <= i < |added| ==>
          added[i].id > 0 && added[i].id !in rows && added[i] == FromChange(adds[i]).(id := added[i].id))
    && (forall i, j :: 0 <= i < j < |added| ==> added[i].id != added[j].id)
  }

  lemma {:induction false} AddedAre(rows: Rows, adds: seq<Change>, added: seq<Project>, id: nat)
    requires AddedFor(rows, adds, added) && id in WithAdded(rows, added)
    ensures id in rows ==> WithAdded(rows, added)[id] == rows[id]
    ensures id !in rows ==> exists i :: 0 <= i < |added| && added[i].id == id && WithAdded(rows, added)[id] == added[i]
  {
    if added != [] {
      var last := added[|added| - 1];
      if id != last.id { AddedAre(rows, adds, added[..|added| - 1], id); }
    }
  }

  lemma {:induction false} AddedIsThere(rows: Rows, adds: seq<Change>, added: seq<Project>, k: nat)
    requires AddedFor(rows, adds, added) && k < |added|
    ensures added[k].id in WithAdded(rows, added) && WithAdded(rows, added)[added[k].id] == added[k]
  {
    var n := |added| - 1;
    if k < n { AddedIsThere(rows, adds, added[..n], k); }
  }

  lemma {:induction false} AddedIndex(rows: Rows, added: seq<Project>, id: nat) returns (k: nat)
    requires id in WithAdded(rows, added) && id !in rows
    ensures k < |added| && added[k].id == id && WithAdded(rows, added)[id] == added[k]
  {
    k := |added| - 1;
    if added[k].id != id { k := AddedIndex(rows, added[..k], id); }
  }

  lemma OverlayAliases(rows: Rows, updates: seq<Change>, adds: seq<Change>, a: Change, id: nat)
    requires UpdatesFit(rows, updates) && AddsFit(rows, updates, adds) && a in adds && id in rows
    ensures Overlay(rows, updates)[id].alias != a.alias && Overlay(rows, updates)[id].remote != a.identity
  {
    if id in Finals(updates, |updates|) {
      var i := FinalsAre(updates, |updates|, id);
      assert updates[i] in updates && updates[i].alias in Wanted(updates) && a.alias in Wanted(adds);
    } else if rows[id].alias == a.alias {
      assert a.alias in Wanted(adds) && Updated(updates, id);
      var i := UpdateIndex(updates, id);
      FinalsHave(updates, |updates|, i);
    }
  }

  lemma AddFindsItsNamesFree(rows: Rows, updates: seq<Change>, adds: seq<Change>, added: seq<Project>, id: nat)
    requires UpdatesFit(rows, updates) && AddsFit(rows, updates, adds)
    requires AddedFor(rows, adds, added) && |added| < |adds| && id in WithAdded(Overlay(rows, updates), added)
    ensures WithAdded(Overlay(rows, updates), added)[id].alias != adds[|added|].alias
    ensures WithAdded(Overlay(rows, updates), added)[id].remote != adds[|added|].identity
  {
    AddedAre(Overlay(rows, updates), adds, added, id);
    if id in rows {
      OverlayAliases(rows, updates, adds, adds[|added|], id);
    }
  }

  /** Each add finds its alias and its remote free. */
  lemma AddSucceeds(rows: Rows, updates: seq<Change>, adds: seq<Change>, added: seq<Project>)
    requires UpdatesFit(rows, updates) && AddsFit(rows, updates, adds)
    requires AddedFor(rows, adds, added) && |added| < |adds|
    ensures
      var p := FromChange(adds[|added|]);
      Checked(WithAdded(Overlay(rows, updates), added), 0, p) == Ok(WithDefaults(p).(id := 0))
      && WithDefaults(p) == p
  {
    var a := adds[|added|];
    var now := WithAdded(Overlay(rows, updates), added);
    assert a in adds;
    forall id | id in now ensures now[id].alias != a.alias && now[id].remote != a.identity {
      AddFindsItsNamesFree(rows, updates, adds, added, id);
    }
    FreeNamesPass(now, FromChange(a));
  }

  lemma FreeNamesPass(rows: Rows, p: Project)
    requires MissingField(p).None? && forall id <- rows :: rows[id].alias != p.alias && rows[id].remote != p.remote
    ensures Checked(rows, 0, p) == Ok(WithDefaults(p).(id := 0))
  {
  }

  lemma OverlayHidesTemps(rows: Rows, updates: seq<Change>, temps: map<nat, string>)
    requires forall id <- temps :: Updated(updates, id)
    ensures Stage(rows, temps, Finals(updates, |updates|)) == Overlay(rows, updates)
  {
    forall id | id in temps ensures id in Finals(updates, |updates|) {
      var i := UpdateIndex(updates, id);
      FinalsHave(updates, |updates|, i);
    }
  }

  /** Deleting the last added row undoes its add. */
  lemma DeleteUndoesAdd(rows: Rows, adds: seq<Change>, added: seq<Project>)
    requires AddedFor(rows, adds, added) && added != []
    ensures
      var n := |added| - 1;
      && added[n].id in WithAdded(rows, added)
      && WithAdded(rows, added) - {added[n].id} == WithAdded(rows, added[..n])
  {
    var n := |added| - 1;
    if added[n].id in WithAdded(rows, added[..n]) {
      AddedAre(rows, adds, added[..n], added[n].id);
    }
  }
}
