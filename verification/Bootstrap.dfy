/** Hydrating projects from the registry, and recording where they were cloned to. */
module Bootstrap {
  import opened Paths
  import opened Projects
  import opened Disks
  import opened Placeholders
  import opened Cloning
  import opened Planner
  import opened Execution

  datatype Request = AllProjects | ByAlias(aliases: seq<string>)

  predicate Selects(request: Request, p: Project) { request.AllProjects? || p.alias in request.aliases }

  // ----- planning -----

  ghost predicate IsActionFor(a: Action, codec: Codec, fs: Fs, root: Option<Abs>, rows: Rows)
    requires Sound(rows)
  {
    a.projectID in rows && a == Classify(codec, fs, root, rows[a.projectID])
  }

  /** A blank name among the aliases, which is an error. */
  predicate Unnamed(request: Request) { request.ByAlias? && "" in request.aliases }

  /** What a registry plan is: one action for each selected row, and one refusal for each alias nobody has. */
  ghost predicate IsRegistryPlan(actions: seq<Action>, codec: Codec, fs: Fs, root: Option<Abs>, rows: Rows,
      request: Request)
    requires Sound(rows)
  {
    && (forall a <- actions ::
          || (a == Unknown(a.alias) && request.ByAlias? && a.alias in request.aliases
              && forall id <- rows :: rows[id].alias != a.alias)
          || (IsActionFor(a, codec, fs, root, rows) && Selects(request, rows[a.projectID])))
    && (forall id <- rows :: Selects(request, rows[id]) ==> Classify(codec, fs, root, rows[id]) in actions)
    && (request.ByAlias? ==> forall alias <- request.aliases :: exists a <- actions :: a.alias == alias)
    && OnePerAlias(actions)
    && (request.ByAlias? ==> InOrder(actions, FirstOnes(request.aliases)))
  }

  /** The names without those that came before. */
  function FirstOnes(names: seq<string>): seq<string> {
    if names == [] then [] else
      var n := |names| - 1;
      FirstOnes(names[..n]) + if names[n] in names[..n] then [] else [names[n]]
  }

  predicate InOrder(actions: seq<Action>, names: seq<string>) {
    |actions| == |names| && forall i :: 0 <= i < |names| ==> actions[i].alias == names[i]
  }

  ghost predicate OnePerAlias(actions: seq<Action>) {
    forall i, j :: 0 <= i < j < |actions| ==> actions[i].alias != actions[j].alias
  }

  function Unknown(alias: string): Action {
    var row := Project(0, alias, "", "", None, None, "");
    Action(alias, 0, [], None, row, UnknownProject, Refuse)
  }

  /** `PlanProject` */
  method PlanProject(codec: Codec, disk: Disk, root: Option<Abs>, projects: seq<Project>, alias: string,
                     ghost rows: Rows) returns (action: Action)
    requires Sound(rows) && Lists(projects, rows) && alias != ""
    ensures action.alias == alias
    ensures if exists id <- rows :: rows[id].alias == alias then IsActionFor(action, codec, disk.fs, root, rows)
            else action == Unknown(alias)
  {
    for i := 0 to |projects|
      invariant forall j :: 0 <= j < i ==> projects[j].alias != alias
    {
      assert projects[i] == rows[projects[i].id];
      if projects[i].alias == alias { return Classify(codec, disk.fs, root, projects[i]); }
    }
    forall id | id in rows ensures rows[id].alias != alias {
      var i :| 0 <= i < |projects| && projects[i] == rows[id];
    }
    return Unknown(alias);
  }

  /** `PlanRegistry`: one action for each row or, on request, for each different alias.  None is the error for a blank
      name. */
  method PlanRegistry(codec: Codec, disk: Disk, root: Option<Abs>, store: ProjectStore, request: Request)
    returns (actions: Option<seq<Action>>)
    requires store.Valid()
    ensures actions.None? <==> Unnamed(request)
    ensures actions.Some? ==> IsRegistryPlan(actions.value, codec, disk.fs, root, store.rows, request)
    ensures actions.Some? ==> forall a <- actions.value ::
        a.state == OutsideRoot <==> a.projectID in store.rows && Misplaced(root, store.rows[a.projectID])
  {
    actions := PlanRequested(codec, disk, root, store, request);
    if actions.Some? { OutsideAreMisplaced(actions.value, codec, disk.fs, root, store.rows, request); }
  }

  /** A selected canonical project whose place is not in the workspace. */
  ghost predicate SomeMisplaced(root: Option<Abs>, rows: Rows, request: Request)
    requires Sound(rows)
  {
    exists id <- rows :: Selects(request, rows[id]) && Misplaced(root, rows[id])
  }

  lemma OutsideAreMisplaced(actions: seq<Action>, codec: Codec, fs: Fs, root: Option<Abs>, rows: Rows, request: Request)
    requires Sound(rows) && IsRegistryPlan(actions, codec, fs, root, rows, request)
    ensures forall a <- actions ::
        a.state == OutsideRoot <==> a.projectID in rows && Misplaced(root, rows[a.projectID])
    ensures SomeMisplaced(root, rows, request) ==> Refusals(actions)
  {
    forall a | a in actions
      ensures a.state == OutsideRoot <==> a.projectID in rows && Misplaced(root, rows[a.projectID])
    {
      if a.projectID in rows { OutsideRootIsMisplaced(codec, fs, root, rows[a.projectID]); }
    }
    if id :| id in rows && Selects(request, rows[id]) && Misplaced(root, rows[id]) {
      OutsideRootIsMisplaced(codec, fs, root, rows[id]);
      assert Classify(codec, fs, root, rows[id]) in actions;
    }
  }

  /** The loops over the rows, or over the names. */
  method PlanRequested(codec: Codec, disk: Disk, root: Option<Abs>, store: ProjectStore, request: Request)
    returns (actions: Option<seq<Action>>)
    requires store.Valid()
    ensures actions.None? <==> Unnamed(request)
    ensures actions.Some? ==> IsRegistryPlan(actions.value, codec, disk.fs, root, store.rows, request)
  {
    var projects := store.ListProjects();
    match request {
      case AllProjects =>
        var planned := PlanAll(codec, disk, root, projects, store.rows);
        return Some(planned);
      case ByAlias(aliases) => actions := PlanAliases(codec, disk, root, projects, aliases, store.rows);
    }
  }

  method PlanAll(codec: Codec, disk: Disk, root: Option<Abs>, projects: seq<Project>, ghost rows: Rows)
    returns (actions: seq<Action>)
    requires Sound(rows) && Lists(projects, rows)
    ensures IsRegistryPlan(actions, codec, disk.fs, root, rows, AllProjects)
  {
    actions := [];
    ListedAreComplete(projects, rows);
    for i := 0 to |projects|
      invariant |actions| == i
      invariant forall j :: 0 <= j < i ==> actions[j] == Classify(codec, disk.fs, root, projects[j])
    {
      actions := actions + [Classify(codec, disk.fs, root, projects[i])];
    }
    AllPlanned(actions, codec, disk.fs, root, projects, rows);
  }

  lemma ListedAreComplete(projects: seq<Project>, rows: Rows)
    requires Sound(rows) && Lists(projects, rows)
    ensures forall i :: 0 <= i < |projects| ==> Projects.Complete(projects[i])
  {
    forall i | 0 <= i < |projects| ensures Projects.Complete(projects[i]) {
      assert projects[i] == rows[projects[i].id];
    }
  }

  lemma AllPlanned(actions: seq<Action>, codec: Codec, fs: Fs, root: Option<Abs>, projects: seq<Project>, rows: Rows)
    requires Sound(rows) && Lists(projects, rows) && |actions| == |projects|
    requires forall i :: 0 <= i < |projects| ==> Projects.Complete(projects[i])
    requires forall i :: 0 <= i < |projects| ==> actions[i] == Classify(codec, fs, root, projects[i])
    ensures IsRegistryPlan(actions, codec, fs, root, rows, AllProjects)
  {
    ListedAliasesDiffer(projects, rows);
    forall a | a in actions ensures IsActionFor(a, codec, fs, root, rows) {
      var i :| 0 <= i < |actions| && actions[i] == a;
      assert projects[i] == rows[projects[i].id];
    }
    forall id | id in rows ensures Classify(codec, fs, root, rows[id]) in actions {
      var i :| 0 <= i < |projects| && projects[i] == rows[id];
      assert actions[i] in actions;
    }
  }

  lemma ListedAliasesDiffer(projects: seq<Project>, rows: Rows)
    requires Sound(rows) && Lists(projects, rows)
    ensures forall i, j :: 0 <= i < j < |projects| ==> projects[i].alias != projects[j].alias
  {
    forall i, j | 0 <= i < j < |projects| ensures projects[i].alias != projects[j].alias {
      assert Projects.Apart(rows[projects[i].id], rows[projects[j].id]);
    }
  }

  ghost predicate PlannedAlias(alias: string, actions: seq<Action>, codec: Codec, fs: Fs, root: Option<Abs>, rows: Rows)
    requires Sound(rows)
  {
    && (exists a <- actions :: a.alias == alias)
    && (forall id <- rows :: rows[id].alias == alias ==> Classify(codec, fs, root, rows[id]) in actions)
  }

  ghost predicate IsAliasAction(a: Action, codec: Codec, fs: Fs, root: Option<Abs>, rows: Rows)
    requires Sound(rows)
  {
    if a == Unknown(a.alias) then forall id <- rows :: rows[id].alias != a.alias
    else IsActionFor(a, codec, fs, root, rows)
  }

  method PlanAliases(codec: Codec, disk: Disk, root: Option<Abs>, projects: seq<Project>, aliases: seq<string>,
                     ghost rows: Rows) returns (plan: Option<seq<Action>>)
    requires Sound(rows) && Lists(projects, rows)
    ensures plan.None? <==> "" in aliases
    ensures plan.Some? ==> IsRegistryPlan(plan.value, codec, disk.fs, root, rows, ByAlias(aliases))
  {
    var actions := [];
    var seen: set<string> := {};
    for i := 0 to |aliases|
      invariant seen == (set j | 0 <= j < i :: aliases[j]) && InOrder(actions, FirstOnes(aliases[..i]))
      invariant "" !in seen && AliasActions(actions, seen, codec, disk.fs, root, rows)
      invariant forall alias <- seen :: PlannedAlias(alias, actions, codec, disk.fs, root, rows)
    {
      var alias := aliases[i];
      assert aliases[..i + 1][..i] == aliases[..i] && (alias in seen <==> alias in aliases[..i]);
      if alias !in seen {
        if alias == "" { return None; }
        var action := PlanProject(codec, disk, root, projects, alias, rows);
        OneMoreAlias(seen, alias, actions, action, codec, disk.fs, root, rows);
        actions, seen := actions + [action], seen + {alias};
      }
    }
    assert aliases[..|aliases|] == aliases;
    assert forall alias <- aliases :: alias in seen;
    AliasRowsPlanned(aliases, actions, codec, disk.fs, root, rows);
    AllAliasesPlanned(aliases, seen, actions, codec, disk.fs, root, rows);
    return Some(actions);
  }

  /** One action for each of the aliases seen so far. */
  ghost predicate AliasActions(actions: seq<Action>, seen: set<string>, codec: Codec, fs: Fs, root: Option<Abs>,
                               rows: Rows)
    requires Sound(rows)
  {
    (forall a <- actions :: a.alias in seen && IsAliasAction(a, codec, fs, root, rows)) && OnePerAlias(actions)
  }

  lemma AliasRowsPlanned(aliases: seq<string>, actions: seq<Action>, codec: Codec, fs: Fs, root: Option<Abs>,
                         rows: Rows)
    requires Sound(rows) && forall alias <- aliases :: PlannedAlias(alias, actions, codec, fs, root, rows)
    ensures forall id <- rows :: rows[id].alias in aliases ==> Classify(codec, fs, root, rows[id]) in actions
    ensures forall alias <- aliases :: exists a <- actions :: a.alias == alias
  {
    forall id | id in rows && rows[id].alias in aliases ensures Classify(codec, fs, root, rows[id]) in actions {
      assert PlannedAlias(rows[id].alias, actions, codec, fs, root, rows);
    }
  }

  lemma AllAliasesPlanned(aliases: seq<string>, seen: set<string>, actions: seq<Action>, codec: Codec, fs: Fs,
                          root: Option<Abs>, rows: Rows)
    requires Sound(rows) && (forall alias <- seen :: alias in aliases)
    requires AliasActions(actions, seen, codec, fs, root, rows) && InOrder(actions, FirstOnes(aliases))
    requires forall id <- rows :: rows[id].alias in aliases ==> Classify(codec, fs, root, rows[id]) in actions
    requires forall alias <- aliases :: exists a <- actions :: a.alias == alias
    ensures IsRegistryPlan(actions, codec, fs, root, rows, ByAlias(aliases))
  {
  }

  lemma OneMoreAlias(seen: set<string>, alias: string, actions: seq<Action>, action: Action, codec: Codec, fs: Fs,
                     root: Option<Abs>, rows: Rows)
    requires Sound(rows) && action.alias == alias
    requires forall x <- seen :: PlannedAlias(x, actions, codec, fs, root, rows)
    requires if exists id <- rows :: rows[id].alias == alias then IsActionFor(action, codec, fs, root, rows)
             else action == Unknown(alias)
    requires alias !in seen && AliasActions(actions, seen, codec, fs, root, rows)
    ensures AliasActions(actions + [action], seen + {alias}, codec, fs, root, rows)
    ensures forall x <- seen + {alias} :: PlannedAlias(x, actions + [action], codec, fs, root, rows)
  {
    var now := actions + [action];
    assert action in now;
    forall x | x in seen + {alias} ensures PlannedAlias(x, now, codec, fs, root, rows) {
      if x in seen {
        assert PlannedAlias(x, actions, codec, fs, root, rows);
        var a :| a in actions && a.alias == x;
        assert a in now;
      }
      forall id | id in rows && rows[id].alias == x ensures Classify(codec, fs, root, rows[id]) in now {
        if x in seen {
          assert Classify(codec, fs, root, rows[id]) in actions;
        } else {
          assert rows[action.projectID].alias == alias && (id != action.projectID ==>
              Projects.Apart(rows[id], rows[action.projectID]));
        }
      }
    }
  }

  // ----- recording the new places -----

  /** A canonical project that was cloned somewhere else than its stored local path. */
  predicate Moves(a: Action) {
    a.kind == CloneIt && a.projectID != 0 && a.row.source == CANONICAL && a.observed.Some? && a.observed.value != a.path
  }

  function PlacedRow(a: Action): Project { a.row.(localPath := Some(a.path), canonicalPath := Some(a.path)) }

  function PlacedRows(rows: Rows, actions: seq<Action>): Rows {
    if actions == [] then rows else
      var n := |actions| - 1;
      var earlier := PlacedRows(rows, actions[..n]);
      if Moves(actions[n]) then earlier[actions[n].projectID := PlacedRow(actions[n])] else earlier
  }

  /** A row as it is once its canonical path is also its local one. */
  function AtCanonical(p: Project): Project { p.(localPath := p.canonicalPath) }

  ghost predicate AllActions(actions: seq<Action>, codec: Codec, fs: Fs, root: Option<Abs>, rows: Rows)
    requires Sound(rows)
  {
    forall a <- actions :: IsActionFor(a, codec, fs, root, rows)
  }

  lemma PlacedRowIs(a: Action, codec: Codec, fs: Fs, root: Option<Abs>, rows: Rows)
    requires Sound(rows) && IsActionFor(a, codec, fs, root, rows) && Moves(a)
    ensures PlacedRow(a) == AtCanonical(rows[a.projectID])
  {
  }

  lemma {:induction false} PlacedAre(rows: Rows, actions: seq<Action>, codec: Codec, fs: Fs, root: Option<Abs>, id: nat)
    requires Sound(rows) && AllActions(actions, codec, fs, root, rows) && id in rows
    ensures id in PlacedRows(rows, actions)
    ensures PlacedRows(rows, actions)[id] ==
            if exists a <- actions :: Moves(a) && a.projectID == id then AtCanonical(rows[id]) else rows[id]
  {
    if actions != [] {
      var n := |actions| - 1;
      var last := actions[n];
      assert last in actions && actions == actions[..n] + [last];
      PlacedAre(rows, actions[..n], codec, fs, root, id);
      if Moves(last) { PlacedRowIs(last, codec, fs, root, rows); }
    }
  }

  lemma {:induction false} PlacedKeys(rows: Rows, actions: seq<Action>, codec: Codec, fs: Fs, root: Option<Abs>)
    requires Sound(rows) && AllActions(actions, codec, fs, root, rows)
    ensures PlacedRows(rows, actions).Keys == rows.Keys
  {
    if actions != [] {
      var n := |actions| - 1;
      assert actions[n] in actions;
      PlacedKeys(rows, actions[..n], codec, fs, root);
    }
  }

  /** Recording a place never trips a uniqueness check. */
  lemma PlacingSucceeds(rows: Rows, earlier: seq<Action>, a: Action, codec: Codec, fs: Fs, root: Option<Abs>)
    requires Sound(rows) && AllActions(earlier, codec, fs, root, rows)
    requires IsActionFor(a, codec, fs, root, rows) && Moves(a)
    ensures TryUpdate(PlacedRows(rows, earlier), a.projectID, PlacedRow(a)) == Ok(PlacedRow(a))
  {
    var now := PlacedRows(rows, earlier);
    PlacedKeys(rows, earlier, codec, fs, root);
    PlacedRowIs(a, codec, fs, root, rows);
    forall id | id in now && id != a.projectID
      ensures now[id].alias != PlacedRow(a).alias && now[id].remote != PlacedRow(a).remote
    {
      PlacedAre(rows, earlier, codec, fs, root, id);
      assert Projects.Apart(rows[id], rows[a.projectID]);
    }
  }

  /** The number of places to record. */
  function MovesIn(actions: seq<Action>): nat {
    if actions == [] then 0 else
      var n := |actions| - 1;
      MovesIn(actions[..n]) + (if Moves(actions[n]) then 1 else 0)
  }

  /** `persistClonedCanonicalPlacements`: the places are recorded in order, up to a failing call. */
  method PersistPlacements(store: ProjectStore, actions: seq<Action>, ghost codec: Codec, ghost fs: Fs,
                           ghost root: Option<Abs>) returns (ok: bool, ghost n: nat)
    requires store.Valid() && AllActions(actions, codec, fs, root, store.rows)
    modifies store
    ensures store.Valid() && n <= |actions| && store.rows == PlacedRows(old(store.rows), actions[..n])
    ensures CallsMade(old(store.failing), store.failing, ok, MovesIn(actions[..n]))
    ensures if ok then n == |actions| else n < |actions| && Moves(actions[n])
  {
    n := 0;
    ghost var rows := store.rows;
    for i := 0 to |actions|
      invariant n == i && store.Valid() && store.rows == PlacedRows(rows, actions[..i])
      invariant CallsMade(old(store.failing), store.failing, true, MovesIn(actions[..i]))
    {
      assert actions[..i + 1][..i] == actions[..i];
      var a := actions[i];
      assert a in actions;
      if Moves(a) {
        ghost var calls, middle := MovesIn(actions[..i]), store.failing;
        PlacingSucceeds(rows, actions[..i], a, codec, fs, root);
        var result := store.UpdateProject(a.projectID, PlacedRow(a));
        CallsAdd(old(store.failing), middle, store.failing, result.Ok?, calls, if result.Ok? then 1 else 0);
        if result.Err? { return false, n; }
      }
      n := n + 1;
    }
    assert actions[..|actions|] == actions;
    return true, n;
  }

  // ----- planning again -----

  lemma CheckoutIsPresent(codec: Codec, fs: Fs, path: Abs, alias: string, identity: string)
    requires path in fs && IsCheckout(fs, path)
    ensures Judge(codec, fs, path, alias, identity) == (Present, NoAction)
  {
  }

  lemma ClonedIsCheckout(fs: Fs, path: Abs, tree: Fs)
    requires HasTree(fs, path, tree) && Rooted(tree) && IsFolder(tree, BarrierPath([]))
    ensures path in fs && IsCheckout(fs, path)
  {
    assert At(fs, path) == At(tree, path[|path|..]) && path[|path|..] == [];
    assert BarrierPath(path)[|path|..] == BarrierPath([]);
    assert At(fs, BarrierPath(path)) == At(tree, BarrierPath(path)[|path|..]);
  }

  /** After all clones have gone through, every planned directory is a checkout. */
  lemma AllArePresent(fs: Fs, before: Fs, codec: Codec, root: Option<Abs>, rows: Rows, actions: seq<Action>,
                      gits: seq<GitOutcome>, matches: Action -> bool, p: nat)
    requires Sound(rows) && |gits| == |actions| && p < |actions| && Passes(actions, matches)
    requires Progress(fs, before, actions, gits, |actions|) && (forall git <- gits :: GitIsSane(git))
    requires IsActionFor(actions[p], codec, before, root, rows)
    ensures Judge(codec, fs, actions[p].path, actions[p].alias, actions[p].row.remote) == (Present, NoAction)
  {
    var a := actions[p];
    assert a in actions;
    if a.kind == CloneIt {
      assert GitIsSane(gits[p]) by { assert gits[p] in gits; }
      ClonedIsCheckout(fs, a.path, gits[p].tree);
    } else {
      PresentWasCheckout(codec, before, root, rows[a.projectID]);
      PresentStays(fs, before, actions, gits, matches, |actions|, p, a.path);
      PresentStays(fs, before, actions, gits, matches, |actions|, p, BarrierPath(a.path));
    }
    CheckoutIsPresent(codec, fs, a.path, a.alias, a.row.remote);
  }

  lemma PresentWasCheckout(codec: Codec, fs: Fs, root: Option<Abs>, p: Project)
    requires Projects.Complete(p) && Classify(codec, fs, root, p).kind == NoAction
    ensures Classify(codec, fs, root, p).state == Present && HydrationPath(p) in fs && IsCheckout(fs, HydrationPath(p))
  {
  }

  /** The second time, every selected project is present and there is nothing to do. */
  ghost predicate Converged(codec: Codec, fs: Fs, root: Option<Abs>, rows: Rows, request: Request)
    requires Sound(rows)
  {
    forall again: seq<Action> {:trigger IsRegistryPlan(again, codec, fs, root, rows, request)} ::
      IsRegistryPlan(again, codec, fs, root, rows, request) ==>
        forall a <- again :: a.kind == NoAction && a.state == Present
  }

  lemma PlansAgain(fs: Fs, before: Fs, codec: Codec, root: Option<Abs>, rows: Rows, request: Request,
                   actions: seq<Action>, gits: seq<GitOutcome>, matches: Action -> bool, id: nat)
    requires Sound(rows) && |gits| == |actions| && Passes(actions, matches)
    requires IsRegistryPlan(actions, codec, before, root, rows, request)
    requires Progress(fs, before, actions, gits, |actions|) && (forall git <- gits :: GitIsSane(git))
    requires id in rows && Selects(request, rows[id])
    ensures Classify(codec, fs, root, rows[id]).kind == NoAction && Classify(codec, fs, root, rows[id]).state == Present
    ensures HydrationPath(AtCanonical(rows[id])) == HydrationPath(rows[id]) || rows[id].source != CANONICAL
    ensures rows[id].source == CANONICAL ==>
        var again := Classify(codec, fs, root, AtCanonical(rows[id])); again.kind == NoAction && again.state == Present
  {
    var a := Classify(codec, before, root, rows[id]);
    var p :| 0 <= p < |actions| && actions[p] == a;
    assert a in actions;
    AllArePresent(fs, before, codec, root, rows, actions, gits, matches, p);
  }

  /** Nobody's alias is asked for in a plan that is not blocked. */
  lemma NoneUnknown(codec: Codec, fs: Fs, root: Option<Abs>, rows: Rows, request: Request, actions: seq<Action>,
                    matches: Action -> bool)
    requires Sound(rows) && Passes(actions, matches) && IsRegistryPlan(actions, codec, fs, root, rows, request)
    ensures AllActions(actions, codec, fs, root, rows)
    ensures request.ByAlias? ==> forall alias <- request.aliases :: exists id <- rows :: rows[id].alias == alias
  {
  }

  lemma Converges(fs: Fs, before: Fs, codec: Codec, root: Option<Abs>, rows: Rows, after: Rows, request: Request,
                  actions: seq<Action>, gits: seq<GitOutcome>, matches: Action -> bool)
    requires Sound(rows) && Sound(after) && |gits| == |actions| && Passes(actions, matches)
    requires IsRegistryPlan(actions, codec, before, root, rows, request)
    requires Progress(fs, before, actions, gits, |actions|) && (forall git <- gits :: GitIsSane(git))
    requires after == PlacedRows(rows, actions)
    ensures Converged(codec, fs, root, after, request)
  {
    NoneUnknown(codec, before, root, rows, request, actions, matches);
    PlacedKeys(rows, actions, codec, before, root);
    forall again: seq<Action>, a | IsRegistryPlan(again, codec, fs, root, after, request) && a in again
      ensures a.kind == NoAction && a.state == Present
    {
      if IsActionFor(a, codec, fs, root, after) && Selects(request, after[a.projectID]) {
        PlacedAre(rows, actions, codec, before, root, a.projectID);
        PlansAgain(fs, before, codec, root, rows, request, actions, gits, matches, a.projectID);
      } else {
        var id :| id in rows && rows[id].alias == a.alias;
        PlacedAre(rows, actions, codec, before, root, id);
      }
    }
  }

  // ----- the whole run -----

  datatype BootstrapError = NoName | Blocked | ExecutionFailed(error: ExecuteError) | StoreFailed

  /** The row of a project after a successful run: its local path is the canonical one if it was cloned there. */
  ghost function Hydrated(codec: Codec, fs: Fs, root: Option<Abs>, request: Request, p: Project): Project
    requires Projects.Complete(p)
  {
    if Selects(request, p) && p.source == CANONICAL && Classify(codec, fs, root, p).kind == CloneIt then AtCanonical(p)
    else p
  }

  lemma PlacedIsHydrated(codec: Codec, fs: Fs, root: Option<Abs>, rows: Rows, request: Request, actions: seq<Action>,
                         id: nat)
    requires Sound(rows) && AllActions(actions, codec, fs, root, rows) && id in rows
    requires IsRegistryPlan(actions, codec, fs, root, rows, request)
    ensures id in PlacedRows(rows, actions)
    ensures PlacedRows(rows, actions)[id] == Hydrated(codec, fs, root, request, rows[id])
  {
    PlacedAre(rows, actions, codec, fs, root, id);
    var a := Classify(codec, fs, root, rows[id]);
    if Selects(request, rows[id]) { assert a in actions && a.projectID == id; }
    if b :| b in actions && Moves(b) && b.projectID == id { assert IsActionFor(b, codec, fs, root, rows); }
  }

  ghost predicate AllHydrated(codec: Codec, fs: Fs, root: Option<Abs>, request: Request, rows: Rows, after: Rows)
    requires Sound(rows)
  {
    after.Keys == rows.Keys && forall id <- rows :: after[id] == Hydrated(codec, fs, root, request, rows[id])
  }

  function Refusals(actions: seq<Action>): bool { exists a <- actions :: a.kind == Refuse }

  /** A plan that went through: every clone was made, and every place recorded. */
  ghost predicate CarriedOut(codec: Codec, before: Fs, fs: Fs, root: Option<Abs>, rows: Rows, after: Rows,
                             request: Request, actions: seq<Action>, gits: seq<GitOutcome>, matches: Action -> bool)
    requires Sound(rows) && |gits| == |actions|
  {
    && IsRegistryPlan(actions, codec, before, root, rows, request) && AllActions(actions, codec, before, root, rows)
    && Passes(actions, matches) && (forall git <- gits :: GitIsSane(git))
    && Progress(fs, before, actions, gits, |actions|) && after == PlacedRows(rows, actions)
  }

  /** A plan of which n actions were done when a clone failed, or the preflight did: the next action is the first that
      could not go through, and besides the clones before it there are at most new parents of its path. */
  ghost predicate GotStuck(codec: Codec, fs: Fs, before: Fs, root: Option<Abs>, actions: seq<Action>,
                           gits: seq<GitOutcome>, matches: Action -> bool, n: nat)
    requires |gits| == |actions|
  {
    if Passes(actions, matches) then
      && n < |actions| && GaveUp(fs, before, actions, gits, n)
      && StoppedAt(codec, before, root, actions, gits, n)
    else n == 0 && fs == before
  }

  /** A plan whose clones all went through, and of whose places the first n were recorded. */
  ghost predicate NotRecorded(fs: Fs, before: Fs, rows: Rows, after: Rows, actions: seq<Action>, gits: seq<GitOutcome>,
                              n: nat)
    requires |gits| == |actions|
  {
    && n < |actions| && Moves(actions[n]) && after == PlacedRows(rows, actions[..n])
    && Progress(fs, before, actions, gits, |actions|)
  }

  /** How a run that did not go through ended.  When a clone failed, none is reported, whatever was cloned before. */
  ghost predicate Ended(error: BootstrapError, codec: Codec, fs: Fs, before: Fs, root: Option<Abs>, rows: Rows,
                        after: Rows, actions: seq<Action>, gits: seq<GitOutcome>, matches: Action -> bool,
                        cloned: seq<Action>, n: nat)
    requires |gits| == |actions|
  {
    match error
    case NoName => false
    case Blocked => false
    case ExecutionFailed(_) =>
      after == rows && cloned == [] && GotStuck(codec, fs, before, root, actions, gits, matches, n)
    case StoreFailed => cloned == ClonesOf(actions) && NotRecorded(fs, before, rows, after, actions, gits, n)
  }

  /** The part of a run after the plan: cloning, and recording the places. */
  method CarryOut(codec: Codec, disk: Disk, root: Option<Abs>, store: ProjectStore, ghost request: Request,
                  actions: seq<Action>, gits: seq<GitOutcome>, matches: Action -> bool)
    returns (error: Option<BootstrapError>, cloned: seq<Action>, ghost n: nat)
    requires store.Valid() && disk.Valid() && Placeholders.Lawful(codec)
    requires |gits| == |actions| && forall git <- gits :: GitIsSane(git)
    requires IsRegistryPlan(actions, codec, disk.fs, root, store.rows, request)
    requires forall a <- actions :: a.kind == CloneIt ==> a.path != []
    modifies store, disk
    ensures store.Valid() && disk.Valid()
    ensures error.Some? ==>
        Ended(error.value, codec, disk.fs, old(disk.fs), root, old(store.rows), store.rows, actions, gits, matches,
              cloned, n)
    ensures error.None? ==> cloned == ClonesOf(actions)
    ensures root.Some? ==> forall a <- cloned :: root.value <= a.path
    ensures error.None? ==> CarriedOut(codec, old(disk.fs), disk.fs, root, old(store.rows), store.rows, request,
        actions, gits, matches)
  {
    ghost var rows, before := store.rows, disk.fs;
    var failed;
    failed, cloned, n := Execute(disk, codec, root, actions, gits, matches);
    if failed.Some? { return Some(ExecutionFailed(failed.value)), [], n; }
    assert actions[..|actions|] == actions;
    NoneUnknown(codec, before, root, rows, request, actions, matches);
    var ok;
    ok, n := PersistPlacements(store, actions, codec, before, root);
    if !ok { return Some(StoreFailed), cloned, n; }
    return None, cloned, n;
  }

  lemma CarriedOutConverges(codec: Codec, before: Fs, fs: Fs, root: Option<Abs>, rows: Rows, after: Rows,
                            request: Request, actions: seq<Action>, gits: seq<GitOutcome>, matches: Action -> bool)
    requires Sound(rows) && Sound(after) && |gits| == |actions|
    requires CarriedOut(codec, before, fs, root, rows, after, request, actions, gits, matches)
    ensures AllHydrated(codec, before, root, request, rows, after) && Converged(codec, fs, root, after, request)
  {
    Converges(fs, before, codec, root, rows, after, request, actions, gits, matches);
    PlacedKeys(rows, actions, codec, before, root);
    forall id | id in rows ensures after[id] == Hydrated(codec, before, root, request, rows[id]) {
      PlacedIsHydrated(codec, before, root, rows, request, actions, id);
    }
  }

  function Gits(actions: seq<Action>, git: Action -> GitOutcome): (gits: seq<GitOutcome>)
    ensures |gits| == |actions| && forall i :: 0 <= i < |gits| ==> gits[i] == git(actions[i])
  {
    seq(|actions|, i requires 0 <= i < |actions| => git(actions[i]))
  }

  lemma GitsAreSane(actions: seq<Action>, git: Action -> GitOutcome)
    requires forall a: Action :: GitIsSane(git(a))
    ensures forall g <- Gits(actions, git) :: GitIsSane(g)
  {
    forall g | g in Gits(actions, git) ensures GitIsSane(g) {
      var i :| 0 <= i < |actions| && Gits(actions, git)[i] == g;
    }
  }

  /** `ApplyRegistry`: it plans, clones, and records the places.  After a success exactly the cloned canonical projects
      have new local paths, and planning the same again finds every selected project present; after a failure exactly a
      prefix of the plan is done, but the clones of that prefix are not reported. */
  method ApplyRegistry(codec: Codec, disk: Disk, root: Option<Abs>, store: ProjectStore, request: Request,
                       git: Action -> GitOutcome, matches: Action -> bool)
    returns (error: Option<BootstrapError>, cloned: seq<Action>, ghost actions: seq<Action>, ghost n: nat)
    requires store.Valid() && disk.Valid() && Placeholders.Lawful(codec)
    requires forall a: Action :: GitIsSane(git(a))
    requires forall id <- store.rows :: HydrationPath(store.rows[id]) != []
    modifies store, disk
    ensures store.Valid() && disk.Valid() && (error == Some(NoName) <==> Unnamed(request))
    ensures error != Some(NoName) ==> IsRegistryPlan(actions, codec, old(disk.fs), root, old(store.rows), request)
    ensures error == Some(Blocked) <==> error != Some(NoName) && Refusals(actions)
    ensures error == Some(NoName) || error == Some(Blocked) ==>
        disk.fs == old(disk.fs) && store.rows == old(store.rows) && cloned == []
    ensures !Unnamed(request) && SomeMisplaced(root, old(store.rows), request) ==> error == Some(Blocked)
    ensures root.Some? ==> forall a <- cloned :: root.value <= a.path
    ensures error.Some? && !error.value.NoName? && !error.value.Blocked? ==>
        Ended(error.value, codec, disk.fs, old(disk.fs), root, old(store.rows), store.rows, actions,
              Gits(actions, git), matches, cloned, n)
    ensures error.None? ==>
        && cloned == ClonesOf(actions)
        && Progress(disk.fs, old(disk.fs), actions, Gits(actions, git), |actions|)
        && AllHydrated(codec, old(disk.fs), root, request, old(store.rows), store.rows)
        && Converged(codec, disk.fs, root, store.rows, request)
    ensures Converged(codec, old(disk.fs), root, old(store.rows), request) ==>
        cloned == [] && disk.fs == old(disk.fs) && store.rows == old(store.rows)
  {
    ghost var rows, before := store.rows, disk.fs;
    n, actions := 0, [];
    var plan := PlanRegistry(codec, disk, root, store, request);
    if plan.None? { return Some(NoName), [], actions, n; }
    actions := plan.value;
    OutsideAreMisplaced(actions, codec, before, root, rows, request);
    if Refusals(plan.value) { return Some(Blocked), [], actions, n; }
    PathsToClone(actions, codec, before, root, rows, request);
    GitsAreSane(actions, git);
    error, cloned, n := CarryOut(codec, disk, root, store, request, plan.value, Gits(plan.value, git), matches);
    if error.None? {
      CarriedOutConverges(codec, before, disk.fs, root, rows, store.rows, request, actions, Gits(actions, git),
          matches);
    }
    if Converged(codec, before, root, rows, request) {
      NothingHappens(error, codec, disk.fs, before, root, rows, store.rows, actions, Gits(actions, git), matches,
          cloned, n);
    }
  }

  lemma NoCloneNoChange(fs: Fs, before: Fs, actions: seq<Action>, gits: seq<GitOutcome>)
    requires |gits| == |actions| && (forall a <- actions :: a.kind == NoAction)
    requires Progress(fs, before, actions, gits, |actions|)
    ensures fs == before
  {
    forall q: Abs ensures At(fs, q) == At(before, q) { assert ParentOrSame(fs, before, actions, |actions|, q); }
    forall q | q in fs ensures q in before && before[q] == fs[q] { assert At(fs, q) == At(before, q); }
    forall q | q in before ensures q in fs { assert At(fs, q) == At(before, q); }
  }

  /** A plan in which everything is present changes nothing, even if a checkout turns out not to match. */
  lemma NothingHappens(error: Option<BootstrapError>, codec: Codec, fs: Fs, before: Fs, root: Option<Abs>, rows: Rows,
                       after: Rows, actions: seq<Action>, gits: seq<GitOutcome>, matches: Action -> bool,
                       cloned: seq<Action>, n: nat)
    requires |gits| == |actions| && (forall a <- actions :: a.kind == NoAction)
    requires error.Some? ==>
        Ended(error.value, codec, fs, before, root, rows, after, actions, gits, matches, cloned, n)
    requires error.None? ==>
        Progress(fs, before, actions, gits, |actions|) && after == PlacedRows(rows, actions)
        && cloned == ClonesOf(actions)
    ensures cloned == [] && fs == before && after == rows
  {
    NothingLeftToDo(rows, actions);
    if error.None? { NoCloneNoChange(fs, before, actions, gits); }
    if error.Some? && error.value.ExecutionFailed? {
      NothingLeftToDo(rows, actions[..n]);
    }
  }

  lemma PathsToClone(actions: seq<Action>, codec: Codec, fs: Fs, root: Option<Abs>, rows: Rows, request: Request)
    requires Sound(rows) && IsRegistryPlan(actions, codec, fs, root, rows, request)
    requires forall id <- rows :: HydrationPath(rows[id]) != []
    ensures forall a <- actions :: a.kind == CloneIt ==> a.path != []
  {
  }

  /** Carrying out a plan in which everything is present clones nothing, and records nothing. */
  lemma {:induction false} NothingLeftToDo(rows: Rows, actions: seq<Action>)
    requires forall a <- actions :: a.kind == NoAction
    ensures ClonesOf(actions) == [] && PlacedRows(rows, actions) == rows
  {
    if actions != [] {
      assert actions[|actions| - 1] in actions;
      NothingLeftToDo(rows, actions[..|actions| - 1]);
    }
  }
}
