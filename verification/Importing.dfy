/** Importing a workspace manifest, from its validation to the project table. */
module Importing {
  import opened Paths
  import opened Hosts
  import opened Projects
  import opened Manifest
  import opened ImportStages
  import opened ApplyImport
  import opened PlanImport
  import opened ConflictFree
  import opened Validation
  import opened Replan

  datatype Outcome = Invalid | Tried(result: ImportOutcome)

  /** `ApplyImport`: validate, list, plan and apply.  A valid manifest whose plan has no conflict is applied in full if
      no call fails; nothing is changed by an invalid one, by one whose plan has a conflict, or by a transaction in
      which a call fails. */
  method ApplyManifest(store: ProjectStore, host: Host, entries: seq<Entry>, workspaceRoot: Place, transactional: bool)
    returns (outcome: Outcome, ghost changes: seq<Change>, ghost k: nat)
    requires store.Valid()
    modifies store
    ensures store.Valid()
    ensures outcome.Invalid? <==> workspaceRoot.None? || !ManifestOk(entries)
    ensures outcome.Invalid? ==> store.rows == old(store.rows)
    ensures !outcome.Invalid? ==>
        exists projects :: Lists(projects, old(store.rows)) && AllComplete(projects)
                        && IsPlan(host, workspaceRoot.value, entries, projects, changes)
    ensures !outcome.Invalid? ==> (outcome.result.Refused? <==> !NoConflict(changes))
    ensures !outcome.Invalid? ==>
        (outcome.result.Imported? <==>
          NoConflict(changes) && Lasts(old(store.failing), Calls(old(store.rows), changes)))
    ensures !outcome.Invalid? && outcome.result.Imported? ==>
        && Applied(store.rows, old(store.rows), changes, outcome.result.added) && AllOk(entries)
        && (Lawful(host) ==> RowsRenewed(host, workspaceRoot.value, entries, old(store.rows), store.rows))
    ensures !outcome.Invalid? && (outcome.result.Refused? || (outcome.result.Failed? && transactional)) ==>
        store.rows == old(store.rows)
    ensures !outcome.Invalid? && outcome.result.Failed? && !transactional ==>
        && PlanFits(old(store.rows), changes)
        && k == FinalsMade(old(store.rows), OfAction(changes, Update), old(store.failing).value)
        && RolledBack(store.rows, old(store.rows), OfAction(changes, Update), k, true, outcome.result.clean)
  {
    changes, k := [], 0;
    var valid := ValidateWorkspace(entries);
    if !valid { return Invalid, changes, k; }
    var projects := store.ListProjects();
    ListedApart(projects, store.rows);
    var plan := PlanImport.PlanImport(host, entries, projects, workspaceRoot);
    if plan.None? { return Invalid, changes, k; }
    changes := plan.value;
    if NoConflict(changes) {
      ConflictFreeFits(host, workspaceRoot.value, entries, projects, store.rows, changes);
    }
    var result;
    result, k := ApplyImportPlan(store, plan.value, projects, transactional);
    outcome := Tried(result);
    if result.Imported? && Lawful(host) {
      ImportRenews(Replan.Run(host, workspaceRoot.value, entries, projects, old(store.rows), changes, result.added,
          store.rows));
    }
  }
}
