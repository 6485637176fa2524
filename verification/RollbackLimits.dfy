/** When the call-by-call rollback of an import goes through, and imports whose rollback does not. */
module RollbackLimits {
  import opened Paths
  import opened Names
  import opened Projects
  import opened Manifest
  import opened ImportStages
  import opened ApplyImport
  import opened Hosts
  import opened PlanImport
  import opened ConflictFree

  /** The form of the aliases the rollback draws. */
  predicate RollbackLike(alias: string) { ROLLBACK_PREFIX <= alias }

  lemma {:induction false} DrawnAreRollbackLike(ids: seq<nat>, used: set<string>, i: nat)
    requires i < |ids|
    ensures RollbackLike(RollbackNames(ids, used)[i])
  {
    if i < |ids| - 1 { DrawnAreRollbackLike(ids[..|ids| - 1], used, i); }
  }

  /** If no row the import leaves alone has, and no update wants, an alias of the reserved form, every rollback goes
      through and is exact, however far the import got. */
  lemma ReservedFormMakesRollbackClear(rows: Rows, updates: seq<Change>, k: nat)
    requires k <= |updates| && forall u <- updates :: u.projectID in rows && !RollbackLike(u.alias)
    requires forall id <- rows :: Updated(updates, id) || !RollbackLike(rows[id].alias)
    ensures RollbackClear(rows, updates, k) && RollbackExact(rows, updates, k)
  {
    var names := DrawnNames(rows, updates, k);
    forall i | 0 <= i < k ensures ClearAt(rows, updates, k, names, i) {
      DrawnAreRollbackLike(Ids(updates[..k]), OriginalAliases(rows, updates), i);
      forall j | i < j < k ensures updates[j].alias != names[i] { assert updates[j] in updates; }
    }
    ClearIsExact(rows, updates, k);
  }

  // ----- a swap of two aliases whose rollback fails -----

  /** A machine on which nothing but the root directory exists. */
  function Bare(): Host {
    Host(p => if p == [] then Seen.Present else Missing,
         p => if p == [] then Directory(true, false) else NotThere,
         p => if p == [] then At(p) else Absent)
  }

  lemma BareIsCanonical(path: Abs)
    ensures Canonical(Bare(), path) == path
  {
    assert path[..0] == [];
    NearestFrom(Bare(), path, 0);
  }

  lemma {:induction false} NothingInTheWay(path: Abs, root: Abs)
    requires path != [] && path != root
    ensures !PathConflict(Bare(), path, Some(root))
    decreases |path|
  {
    BareIsCanonical(path);
    BareIsCanonical(root);
    NoParentConflict(path);
  }

  lemma {:induction false} NoParentConflict(path: Abs)
    ensures !ParentConflict(Bare(), path)
  {
    if Dir(path) != [] { NoParentConflict(Dir(path)); }
  }

  const ROOT: Abs := ["src"]

  function Row(id: nat, alias: string, remote: string, path: Abs): Project {
    Project(id, alias, remote, remote, Some(path), Some(path), CANONICAL)
  }

  function Wish(identity: string, alias: string, name: string): Entry
    requires Plain(name)
  {
    Entry(VERSION, identity, alias, Some(Path(false, [name])), "")
  }

  function To(id: nat, identity: string, alias: string, name: string): Change
    requires Plain(name)
  {
    var path := Some(ROOT + [name]);
    if id == 0 then Change(Add, 0, identity, alias, [name], path, path, identity, [])
    else Change(Update, id, identity, alias, [name], path, path, identity, [AliasField])
  }

  /** Projects 1 and 2 are to swap their aliases; a third one holds an alias that nobody wants. */
  function Swapping(taken: string): seq<Project> {
    [Row(1, "a", "r1", ["src", "p"]), Row(2, "b", "r2", ["src", "q"]), Row(3, taken, "r3", ["home"])]
  }

  function SwappingRows(taken: string): Rows {
    map[1 := Swapping(taken)[0], 2 := Swapping(taken)[1], 3 := Swapping(taken)[2]]
  }

  /** The manifest swaps the two, and has a new project, whose add is the call that fails. */
  function Wishes(): seq<Entry> { [Wish("r1", "b", "p"), Wish("r2", "a", "q"), Wish("r4", "c", "s")] }

  function Swap(): seq<Change> { [To(1, "r1", "b", "p"), To(2, "r2", "a", "q")] }

  function SwapAndAdd(): seq<Change> { Swap() + [To(0, "r4", "c", "s")] }

  predicate Unwanted(taken: string) { taken != "" && taken != "a" && taken != "b" && taken != "c" }

  lemma SwappingIsSound(taken: string)
    requires Unwanted(taken)
    ensures Sound(SwappingRows(taken)) && AllComplete(Swapping(taken))
  {
  }

  lemma SwappingIsListed(taken: string)
    ensures Lists(Swapping(taken), SwappingRows(taken))
  {
    var listed := Swapping(taken);
    assert listed[0] in listed && listed[1] in listed && listed[2] in listed;
  }

  /** What the planner knows: row 3 keeps its alias and its place; the aliases of the others are given up. */
  function SwapKnown(taken: string): Known {
    var rows := Swapping(taken);
    Known(map["r1" := rows[0], "r2" := rows[1], "r3" := rows[2]], map[["home"] := "r3"], map[taken := "r3"],
          map[["home"] := "r3"])
  }

  lemma SwapWants()
    ensures WantedAliases(Wishes()) == map["r1" := "b", "r2" := "a", "r4" := "c"]
  {
    var entries := Wishes();
    assert entries[..2][..1] == entries[..1] && entries[..1][..0] == [];
    assert WantedAliases(entries[..1]) == map["r1" := "b"];
    assert WantedAliases(entries[..2]) == map["r1" := "b", "r2" := "a"];
  }

  /** A project whose directory is missing, and whose alias the manifest changes, keeps nothing. */
  lemma GivesUpAll(wanted: map<string, string>, known: Known, p: Project)
    requires Complete(p) && p.localPath.value != [] && GivesUpAlias(wanted, p)
    ensures KnowOne(Bare(), wanted, known, p) == known.(byIdentity := known.byIdentity[p.remote := p])
  {
  }

  lemma KeepsAll(wanted: map<string, string>, known: Known, p: Project)
    requires Complete(p) && p.localPath == p.canonicalPath && p.remote !in wanted
    ensures KnowOne(Bare(), wanted, known, p) ==
            Known(known.byIdentity[p.remote := p], known.byPath[p.localPath.value := p.remote],
                  known.aliasOwner[p.alias := p.remote], known.seenPaths[p.localPath.value := p.remote])
  {
    BareIsCanonical(p.localPath.value);
  }

  lemma SwapKnows(taken: string)
    requires Unwanted(taken) && AllComplete(Swapping(taken))
    ensures Knowledge(Bare(), Wishes(), Swapping(taken)) == SwapKnown(taken)
  {
    var host, rows, wanted := Bare(), Swapping(taken), WantedAliases(Wishes());
    SwapWants();
    assert rows[..2][..1] == rows[..1] && rows[..1][..0] == [];
    GivesUpAll(wanted, Known(map[], map[], map[], map[]), rows[0]);
    assert Know(host, wanted, rows[..1]) == Known(map["r1" := rows[0]], map[], map[], map[]);
    GivesUpAll(wanted, Known(map["r1" := rows[0]], map[], map[], map[]), rows[1]);
    assert Know(host, wanted, rows[..2]) == Known(map["r1" := rows[0], "r2" := rows[1]], map[], map[], map[]);
    KeepsAll(wanted, Known(map["r1" := rows[0], "r2" := rows[1]], map[], map[], map[]), rows[2]);
  }

  /** What has been recorded of the workspace so far are its own children, and nothing of this entry's. */
  predicate Unheard(s: PlanState, e: Entry)
    requires EntryOk(e)
  {
    && e.identity !in s.identities && e.alias !in s.aliasOwner
    && forall other <- s.seenPaths :: other == ["home"] || (|other| == 2 && other != ROOT + Below(e))
  }

  lemma ChildOfRoot(e: Entry)
    requires EntryOk(e) && |Below(e)| == 1
    ensures DesiredPath(Bare(), ROOT, e) == ROOT + Below(e)
    ensures PathWithinRoot(Bare(), ROOT, ROOT + Below(e)) && !PathConflict(Bare(), ROOT + Below(e), Some(ROOT))
  {
    var path := ROOT + Below(e);
    BareIsCanonical(ROOT);
    BareIsCanonical(path);
    WithinIsProperPrefix(path, ROOT);
    NothingInTheWay(path, ROOT);
  }

  lemma UnheardIsPlaced(s: PlanState, e: Entry)
    requires EntryOk(e) && |Below(e)| == 1 && Unheard(s, e)
    ensures Placed(Bare(), ROOT, s, e)
  {
    var path := ROOT + Below(e);
    ChildOfRoot(e);
    BareIsCanonical(ROOT);
    forall other | other in s.seenPaths ensures other != path && !Within(path, other) && !Within(other, path) {
      WithinIsProperPrefix(path, other);
      WithinIsProperPrefix(other, path);
      assert path[0] == "src" && other == ["home"] ==> other[0] == "home";
    }
  }

  /** An entry for a child of the workspace root, under an alias that nobody keeps: either it only gives a known
      project at its place another alias, or it adds a project. */
  predicate Simple(known: Known, e: Entry, c: Change) {
    && EntryOk(e) && |Below(e)| == 1 && e == Wish(e.identity, e.alias, Below(e)[0]) && e.alias !in known.aliasOwner
    && c == To(c.projectID, e.identity, e.alias, Below(e)[0])
    && (if c.projectID == 0 then e.identity !in known.byIdentity && ROOT + Below(e) !in known.byPath
        else
          && e.identity in known.byIdentity
          && var p := known.byIdentity[e.identity];
             p == Row(c.projectID, p.alias, e.identity, ROOT + Below(e)) && p.alias != e.alias)
  }

  lemma SimpleIsPlanned(known: Known, e: Entry, c: Change)
    requires KnownOk(known) && Simple(known, e, c)
    ensures !Blocked(Bare(), ROOT, known, e) && ChangeOf(Bare(), ROOT, known, e) == c
  {
    ChildOfRoot(e);
    BareIsCanonical(ROOT + Below(e));
    assert Below(e) == [Below(e)[0]];
  }

  lemma UnheardIsClear(known: Known, s: PlanState, e: Entry)
    requires EntryOk(e) && |Below(e)| == 1 && KnownOk(known) && Unheard(s, e) && !Blocked(Bare(), ROOT, known, e)
    ensures Clear(Bare(), ROOT, known, s, e)
    ensures Step(Bare(), ROOT, known, s, e).0 == Recorded(s, e)
  {
    UnheardIsPlaced(s, e);
    ChildOfRoot(e);
  }

  /** What is recorded once a clear entry was planned. */
  function Recorded(s: PlanState, e: Entry): PlanState
    requires EntryOk(e)
  {
    PlanState(s.aliasOwner[e.alias := e.identity], s.seenPaths[ROOT + Below(e) := e.identity],
              s.identities + {e.identity})
  }

  /** A plan so far, and what has been recorded by then. */
  ghost predicate Plans(known: Known, entries: seq<Entry>, changes: seq<Change>, s: PlanState) {
    && AllOk(entries) && KnownOk(known) && PlanFor(Bare(), ROOT, known, entries, changes)
    && s == After(Bare(), ROOT, known, entries)
  }

  /** One more entry at the end of a plan. */
  lemma OneMorePlanned(known: Known, entries: seq<Entry>, changes: seq<Change>, s: PlanState, e: Entry, c: Change)
    requires Plans(known, entries, changes, s) && EntryOk(e) && |Below(e)| == 1 && KnownOk(known)
    requires Unheard(s, e) && !Blocked(Bare(), ROOT, known, e) && c == ChangeOf(Bare(), ROOT, known, e)
    ensures Plans(known, entries + [e], changes + [c], Recorded(s, e))
  {
    UnheardIsClear(known, s, e);
    assert (entries + [e])[..|entries|] == entries && (changes + [c])[..|entries|] == changes;
  }

  /** Entries for different projects, under different aliases, at different places. */
  predicate Foreign(d: Entry, e: Entry)
    requires EntryOk(d) && EntryOk(e)
  {
    d.identity != e.identity && d.alias != e.alias && Below(d) != Below(e)
  }

  lemma StillUnheard(s: PlanState, d: Entry, e: Entry)
    requires EntryOk(d) && EntryOk(e) && |Below(d)| == 1 && Unheard(s, e) && Foreign(d, e)
    ensures Unheard(Recorded(s, d), e)
  {
    assert (ROOT + Below(d))[1..] == Below(d) && (ROOT + Below(e))[1..] == Below(e);
  }

  /** What is recorded after all of the entries. */
  function AllRecorded(known: Known, entries: seq<Entry>): PlanState
    requires AllOk(entries)
  {
    if entries == [] then Start(known) else
      Recorded(AllRecorded(known, entries[..|entries| - 1]), entries[|entries| - 1])
  }

  lemma {:induction false} UnheardOf(known: Known, entries: seq<Entry>, e: Entry)
    requires EntryOk(e) && e.alias !in known.aliasOwner && known.seenPaths.Keys == {["home"]}
    requires forall d <- entries :: EntryOk(d) && |Below(d)| == 1 && Foreign(d, e)
    ensures Unheard(AllRecorded(known, entries), e)
  {
    if entries != [] {
      var n := |entries| - 1;
      UnheardOf(known, entries[..n], e);
      StillUnheard(AllRecorded(known, entries[..n]), entries[n], e);
    }
  }

  lemma OneMoreSimple(known: Known, entries: seq<Entry>, changes: seq<Change>, e: Entry, c: Change)
    requires known.seenPaths.Keys == {["home"]} && AllOk(entries) && Simple(known, e, c)
    requires Plans(known, entries, changes, AllRecorded(known, entries))
    requires forall d <- entries :: EntryOk(d) && |Below(d)| == 1 && Foreign(d, e)
    ensures AllOk(entries + [e]) && Plans(known, entries + [e], changes + [c], AllRecorded(known, entries + [e]))
  {
    UnheardOf(known, entries, e);
    SimpleIsPlanned(known, e, c);
    OneMorePlanned(known, entries, changes, AllRecorded(known, entries), e, c);
    assert (entries + [e])[..|entries|] == entries;
  }

  /** A manifest of such entries has exactly these changes planned. */
  lemma {:induction false} AllPlanned(known: Known, entries: seq<Entry>, changes: seq<Change>)
    requires KnownOk(known) && known.seenPaths.Keys == {["home"]} && |entries| == |changes| && AllOk(entries)
    requires forall i :: 0 <= i < |entries| ==> Simple(known, entries[i], changes[i])
    requires forall i, j :: 0 <= i < j < |entries| ==> Foreign(entries[i], entries[j])
    ensures Plans(known, entries, changes, AllRecorded(known, entries))
  {
    if entries != [] {
      var n := |entries| - 1;
      assert entries[..n] + [entries[n]] == entries && changes[..n] + [changes[n]] == changes;
      AllPlanned(known, entries[..n], changes[..n]);
      OneMoreSimple(known, entries[..n], changes[..n], entries[n], changes[n]);
    }
  }

  lemma SwapKnownHas(taken: string, known: Known)
    requires Unwanted(taken) && known == SwapKnown(taken)
    ensures KnownOk(known) && known.byPath.Keys == known.seenPaths.Keys == {["home"]} && "r4" !in known.byIdentity
    ensures known.aliasOwner.Keys == {taken}
    ensures "r1" in known.byIdentity && known.byIdentity["r1"] == Row(1, "a", "r1", ["src", "p"])
    ensures "r2" in known.byIdentity && known.byIdentity["r2"] == Row(2, "b", "r2", ["src", "q"])
  {
  }

  lemma WishesAreSimple(taken: string, known: Known)
    requires Unwanted(taken) && known == SwapKnown(taken)
    ensures AllOk(Wishes())
    ensures forall i :: 0 <= i < 3 ==> Simple(known, Wishes()[i], SwapAndAdd()[i])
  {
    var e := Wishes();
    SwapKnownHas(taken, known);
    assert ROOT + Below(e[0]) == ["src", "p"] && ROOT + Below(e[1]) == ["src", "q"];
    assert ROOT + Below(e[2]) == ["src", "s"];
  }

  lemma SwapIsPlanned(taken: string)
    requires Unwanted(taken)
    ensures AllOk(Wishes()) && KnownOk(SwapKnown(taken))
    ensures PlanFor(Bare(), ROOT, SwapKnown(taken), Wishes(), SwapAndAdd())
  {
    SwapKnownHas(taken, SwapKnown(taken));
    WishesAreSimple(taken, SwapKnown(taken));
    AllPlanned(SwapKnown(taken), Wishes(), SwapAndAdd());
  }

  lemma NothingConflicts()
    ensures NoConflict(SwapAndAdd())
  {
  }

  /** The planner makes the plan, without a conflict. */
  lemma SwapIsAPlan(taken: string)
    requires Unwanted(taken)
    ensures AllOk(Wishes()) && AllComplete(Swapping(taken))
    ensures IsPlan(Bare(), ROOT, Wishes(), Swapping(taken), SwapAndAdd()) && NoConflict(SwapAndAdd())
  {
    SwappingIsSound(taken);
    SwapKnows(taken);
    SwapIsPlanned(taken);
    NothingConflicts();
  }

  // ----- the failing add, and its rollback -----

  const FIRST := "__codemesh_manifest_rollback_1"
  const TAKEN := "__codemesh_manifest_rollback_2"

  /** The table once both have been given their final content. */
  function Swapped(): Rows {
    map[1 := Row(1, "b", "r1", ["src", "p"]), 2 := Row(2, "a", "r2", ["src", "q"]), 3 := Swapping(TAKEN)[2]]
  }

  /** The table the rollback leaves: project 1 has not got its alias back. */
  function LeftBehind(): Rows {
    map[1 := Row(1, FIRST, "r1", ["src", "p"]), 2 := Swapping(TAKEN)[1], 3 := Swapping(TAKEN)[2]]
  }

  lemma ThreeChanges(a: Change, b: Change, c: Change)
    requires a.action == b.action == Update && c.action == Add
    ensures OfAction([a, b, c], Update) == [a, b] && OfAction([a, b, c], Add) == [c]
  {
    assert [a, b, c][..2] == [a, b] && [a, b][..1] == [a] && [a][..0] == [];
    assert OfAction([a], Update) == [a] && OfAction([a], Add) == [];
    assert OfAction([a, b], Update) == [a, b] && OfAction([a, b], Add) == [];
  }

  lemma SwapUpdates()
    ensures OfAction(SwapAndAdd(), Update) == Swap() && |OfAction(SwapAndAdd(), Add)| == 1
  {
    var all := SwapAndAdd();
    ThreeChanges(all[0], all[1], all[2]);
    assert all == [all[0], all[1], all[2]];
  }

  lemma SwapFits()
    ensures Sound(SwappingRows(TAKEN)) && PlanFits(SwappingRows(TAKEN), SwapAndAdd())
    ensures UpdatesFit(SwappingRows(TAKEN), Swap())
  {
    SwappingIsSound(TAKEN);
    SwappingIsListed(TAKEN);
    SwapIsAPlan(TAKEN);
    ConflictFreeFits(Bare(), ROOT, Wishes(), Swapping(TAKEN), SwappingRows(TAKEN), SwapAndAdd());
    SwapUpdates();
  }

  lemma SwapLeads()
    ensures Overlay(SwappingRows(TAKEN), Swap()) == Swapped()
  {
    assert ROOT + ["p"] == ["src", "p"] && ROOT + ["q"] == ["src", "q"];
    assert Finals(Swap(), 2) == map[1 := Row(1, "b", "r1", ["src", "p"]), 2 := Row(2, "a", "r2", ["src", "q"])];
  }

  lemma DrawnForSwap(names: seq<string>)
    requires forall u <- Swap() :: u.projectID in SwappingRows(TAKEN)
    requires names == DrawnNames(SwappingRows(TAKEN), Swap(), 2)
    ensures names == [FIRST, TAKEN]
  {
    var rows, updates := SwappingRows(TAKEN), Swap();
    var originals := OriginalAliases(rows, updates);
    assert originals <= {"a", "b"};
    NextDrawnName(rows, updates, 2, 0);
    NextDrawnName(rows, updates, 2, 1);
    assert Decimal(1) == "1" && RollbackCandidate(1)(0) == FIRST;
    assert Decimal(2) == "2" && RollbackCandidate(2)(0) == TAKEN;
    assert names[..0] == [] && names[..1] == [FIRST];
    assert FIRST[29] != TAKEN[29];
  }

  /** The second rename is refused, because project 3 has its alias; project 2 then still has the alias of project 1,
      which comes before it. */
  lemma SwapIsNotExact()
    requires forall u <- Swap() :: u.projectID in SwappingRows(TAKEN)
    ensures !RollbackClear(SwappingRows(TAKEN), Swap(), 2) && !RollbackExact(SwappingRows(TAKEN), Swap(), 2)
  {
    var rows, names := SwappingRows(TAKEN), DrawnNames(SwappingRows(TAKEN), Swap(), 2);
    DrawnForSwap(names);
    assert Swap()[..1] == [Swap()[0]];
    assert !Updated(Swap(), 3) && rows[3].alias == names[1];
    assert !ClearAt(rows, Swap(), 2, names, 1);
    assert 1 in DrawnRefused(rows, Swap(), 2);
    assert rows[1].alias == Swap()[1].alias;
  }

  lemma SwapCalls()
    ensures UpdateCalls(SwappingRows(TAKEN), Swap()) == 4
  {
    var rows, updates := SwappingRows(TAKEN), Swap();
    assert updates[0] in updates && updates[1] in updates;
    assert Renames(rows, updates) == {1, 2};
  }

  /** When an add fails and the rollback of the updates is not clear, an error is reported, and the table is what it was
      exactly if the rollback is exact. */
  method FailingAdd(store: ProjectStore, changes: seq<Change>, projects: seq<Project>, ghost updates: seq<Change>)
    returns (outcome: ImportOutcome)
    requires store.Valid() && Lists(projects, store.rows) && PlanFits(store.rows, changes) && NoConflict(changes)
    requires updates == OfAction(changes, Update) && |OfAction(changes, Add)| > 0
    requires store.failing == Some(UpdateCalls(store.rows, updates))
    requires forall u <- updates :: u.projectID in store.rows
    requires !RollbackClear(store.rows, updates, |updates|)
    modifies store
    ensures outcome == ImportOutcome.Failed(false)
    ensures store.rows == old(store.rows) <==> RollbackExact(old(store.rows), updates, |updates|)
  {
    ghost var k;
    outcome, k := ApplyImportPlan(store, changes, projects, false);
  }

  /** Importing the plan when the add fails, which is the fifth call: the rollback reports an error, and the table is
      not what it was. */
  method SwapFails(store: ProjectStore) returns (outcome: ImportOutcome)
    requires store.Valid() && store.rows == SwappingRows(TAKEN) && store.failing == Some(4)
    modifies store
    ensures outcome == ImportOutcome.Failed(false) && store.rows != SwappingRows(TAKEN)
  {
    SwapFits();
    SwapUpdates();
    SwappingIsListed(TAKEN);
    NothingConflicts();
    SwapIsNotExact();
    SwapCalls();
    outcome := FailingAdd(store, SwapAndAdd(), Swapping(TAKEN), Swap());
  }

  /** That rollback call by call: the second rename and the restoring of project 1 are refused, and project 1 is left
      under a rollback alias. */
  lemma RollbackCanFail()
    ensures Sound(SwappingRows(TAKEN)) && AllOk(Wishes()) && AllComplete(Swapping(TAKEN))
    ensures IsPlan(Bare(), ROOT, Wishes(), Swapping(TAKEN), SwapAndAdd()) && NoConflict(SwapAndAdd())
    ensures UpdatesFit(SwappingRows(TAKEN), Swap()) && Overlay(SwappingRows(TAKEN), Swap()) == Swapped()
    ensures DrawnNames(SwappingRows(TAKEN), Swap(), 2) == [FIRST, TAKEN]
    ensures
      var rows, freed := SwappingRows(TAKEN), Swapped()[1 := Row(1, FIRST, "r1", ["src", "p"])];
      && TryUpdate(Swapped(), 1, freed[1]) == Ok(freed[1])
      && TryUpdate(freed, 2, Row(2, TAKEN, "r2", ["src", "q"])) == Err(AliasConflict)
      && TryUpdate(freed, 1, rows[1]) == Err(AliasConflict)
      && TryUpdate(freed, 2, rows[2]) == Ok(rows[2])
      && freed[2 := rows[2]] == LeftBehind() && LeftBehind() != rows
  {
    SwapFits();
    SwapIsAPlan(TAKEN);
    SwapLeads();
    DrawnForSwap(DrawnNames(SwappingRows(TAKEN), Swap(), 2));
    SwapRollback();
  }

  lemma SwapRollback()
    ensures
      var rows, freed := SwappingRows(TAKEN), Swapped()[1 := Row(1, FIRST, "r1", ["src", "p"])];
      && TryUpdate(Swapped(), 1, freed[1]) == Ok(freed[1])
      && TryUpdate(freed, 2, Row(2, TAKEN, "r2", ["src", "q"])) == Err(AliasConflict)
      && TryUpdate(freed, 1, rows[1]) == Err(AliasConflict)
      && TryUpdate(freed, 2, rows[2]) == Ok(rows[2])
      && freed[2 := rows[2]] == LeftBehind() && LeftBehind() != rows
  {
    var freed := Swapped()[1 := Row(1, FIRST, "r1", ["src", "p"])];
    assert FIRST[29] != TAKEN[29] && |FIRST| == |TAKEN| == 30;
    assert freed[3].alias == TAKEN && freed[2].alias == "a" && freed[1].alias == FIRST;
  }

  // ----- an error that does no harm -----

  /** Project 1 is to have another alias, and another project holds the alias that the rollback draws for it. */
  function KeepingListed(): seq<Project> { [Row(1, "a", "r1", ["src", "p"]), Row(3, FIRST, "r3", ["home"])] }

  function Keeping(): Rows { map[1 := KeepingListed()[0], 3 := KeepingListed()[1]] }

  /** The manifest has a new project besides, whose add is the call that fails. */
  function OneWish(): seq<Entry> { [Wish("r1", "b", "p"), Wish("r4", "c", "s")] }

  function Rename(): seq<Change> { [To(1, "r1", "b", "p")] }

  function RenameAndAdd(): seq<Change> { Rename() + [To(0, "r4", "c", "s")] }

  lemma KeepingIsSound()
    ensures Sound(Keeping()) && AllComplete(KeepingListed()) && Lists(KeepingListed(), Keeping())
  {
    var listed := KeepingListed();
    assert listed[0] in listed && listed[1] in listed;
  }

  lemma OneWishWants()
    ensures WantedAliases(OneWish()) == map["r1" := "b", "r4" := "c"]
  {
    var entries := OneWish();
    assert entries[..1][..0] == [];
    assert WantedAliases(entries[..1]) == map["r1" := "b"];
  }

  function RenameKnown(): Known {
    var rows := KeepingListed();
    Known(map["r1" := rows[0], "r3" := rows[1]], map[["home"] := "r3"], map[FIRST := "r3"], map[["home"] := "r3"])
  }

  lemma RenameKnows()
    requires AllComplete(KeepingListed())
    ensures Knowledge(Bare(), OneWish(), KeepingListed()) == RenameKnown()
  {
    var host, rows, wanted := Bare(), KeepingListed(), WantedAliases(OneWish());
    OneWishWants();
    assert rows[..1][..0] == [];
    GivesUpAll(wanted, Known(map[], map[], map[], map[]), rows[0]);
    assert Know(host, wanted, rows[..1]) == Known(map["r1" := rows[0]], map[], map[], map[]);
    KeepsAll(wanted, Known(map["r1" := rows[0]], map[], map[], map[]), rows[1]);
  }

  lemma OneWishIsSimple(known: Known)
    requires known == RenameKnown()
    ensures AllOk(OneWish()) && KnownOk(known) && known.seenPaths.Keys == {["home"]}
    ensures forall i :: 0 <= i < 2 ==> Simple(known, OneWish()[i], RenameAndAdd()[i])
  {
    var e := OneWish();
    assert ROOT + Below(e[0]) == ["src", "p"] && ROOT + Below(e[1]) == ["src", "s"];
    assert |FIRST| == 30 && known.aliasOwner.Keys == {FIRST};
  }

  lemma RenameIsPlanned()
    ensures AllOk(OneWish()) && KnownOk(RenameKnown())
    ensures PlanFor(Bare(), ROOT, RenameKnown(), OneWish(), RenameAndAdd())
  {
    OneWishIsSimple(RenameKnown());
    AllPlanned(RenameKnown(), OneWish(), RenameAndAdd());
  }

  /** The planner makes the plan, without a conflict. */
  lemma RenameIsAPlan()
    ensures AllOk(OneWish()) && AllComplete(KeepingListed())
    ensures IsPlan(Bare(), ROOT, OneWish(), KeepingListed(), RenameAndAdd()) && NoConflict(RenameAndAdd())
  {
    KeepingIsSound();
    RenameKnows();
    RenameIsPlanned();
  }

  lemma RenameUpdates()
    ensures OfAction(RenameAndAdd(), Update) == Rename() && |OfAction(RenameAndAdd(), Add)| == 1
  {
    var all := RenameAndAdd();
    assert all[..1] == Rename() && Rename()[..0] == [];
    assert OfAction(Rename(), Update) == Rename() && OfAction(Rename(), Add) == [];
  }

  lemma RenameFits()
    ensures Sound(Keeping()) && PlanFits(Keeping(), RenameAndAdd()) && UpdatesFit(Keeping(), Rename())
  {
    KeepingIsSound();
    RenameIsAPlan();
    ConflictFreeFits(Bare(), ROOT, OneWish(), KeepingListed(), Keeping(), RenameAndAdd());
    RenameUpdates();
  }

  lemma OnlyNameIsTaken()
    requires forall u <- Rename() :: u.projectID in Keeping()
    ensures !RollbackClear(Keeping(), Rename(), 1)
  {
    var rows, updates := Keeping(), Rename();
    var names := DrawnNames(rows, updates, 1);
    NextDrawnName(rows, updates, 1, 0);
    assert Decimal(1) == "1" && RollbackCandidate(1)(0) == FIRST;
    assert OriginalAliases(rows, updates) <= {"a"} && names[..0] == [];
    assert names[0] == FIRST && !Updated(updates, 3) && rows[3].alias == names[0];
    assert !ClearAt(rows, updates, 1, names, 0);
  }

  lemma RenameIsExact()
    requires forall u <- Rename() :: u.projectID in Keeping()
    ensures RollbackExact(Keeping(), Rename(), 1)
  {
  }

  lemma RenameCalls()
    ensures UpdateCalls(Keeping(), Rename()) == 2
  {
    assert Rename()[0] in Rename();
    assert Renames(Keeping(), Rename()) == {1};
  }

  /** A planned rename, while another project holds the alias its rollback draws: the rollback is not clear, but it is
      exact. */
  lemma UnclearCanBeExact()
    ensures Sound(Keeping()) && AllOk(OneWish()) && AllComplete(KeepingListed()) && Lists(KeepingListed(), Keeping())
    ensures IsPlan(Bare(), ROOT, OneWish(), KeepingListed(), RenameAndAdd()) && NoConflict(RenameAndAdd())
    ensures OfAction(RenameAndAdd(), Update) == Rename() && UpdatesFit(Keeping(), Rename())
    ensures !RollbackClear(Keeping(), Rename(), 1) && RollbackExact(Keeping(), Rename(), 1)
  {
    KeepingIsSound();
    RenameIsAPlan();
    RenameUpdates();
    RenameFits();
    OnlyNameIsTaken();
    RenameIsExact();
  }

  /** Importing that plan when the add fails, which is the third call: the rollback reports an error, but every row is
      as it was. */
  method RenameFails(store: ProjectStore) returns (outcome: ImportOutcome)
    requires store.Valid() && store.rows == Keeping() && store.failing == Some(2)
    modifies store
    ensures outcome == ImportOutcome.Failed(false) && store.rows == Keeping()
  {
    RenameFits();
    UnclearCanBeExact();
    RenameUpdates();
    RenameCalls();
    outcome := FailingAdd(store, RenameAndAdd(), KeepingListed(), Rename());
  }
}
