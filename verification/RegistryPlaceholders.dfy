/** Laying out the registry's projects as placeholders. */
module RegistryPlaceholders {
  import opened Paths
  import opened Projects
  import opened Disks
  import opened Placeholders
  import opened Cloning
  import opened Planner
  import opened Execution
  import opened Materializing
  import opened Bootstrap

  datatype PlaceholderError = NoName | Blocked | NotWritten | NotRecorded

  /** Every selected project is present, or has its placeholder, to be cloned. */
  ghost predicate LaidOut(codec: Codec, fs: Fs, root: Option<Abs>, rows: Rows, request: Request)
    requires Sound(rows)
  {
    forall id <- rows :: Selects(request, rows[id]) ==> IsLaidOut(Classify(codec, fs, root, rows[id]))
  }

  predicate IsLaidOut(a: Action) {
    (a.state == Present && a.kind == NoAction) || (a.state == PlaceholderThere && a.kind == CloneIt)
  }

  /** A present checkout is still one after the placeholders of the plan were written. */
  lemma PresentIsStillThere(codec: Codec, before: Fs, fs: Fs, root: Option<Abs>, p: Project, actions: seq<Action>)
    requires Projects.Complete(p) && NoneOverlap(actions) && OnlyInside(fs, before, Candidates(actions))
    requires Classify(codec, before, root, p) in actions && Classify(codec, before, root, p).kind == NoAction
    ensures Classify(codec, fs, root, p).state == Present && Classify(codec, fs, root, p).kind == NoAction
  {
    var a := Classify(codec, before, root, p);
    PresentWasCheckout(codec, before, root, p);
    NotInCandidate(actions, a, a.path);
    NotInCandidate(actions, a, BarrierPath(a.path));
    assert At(fs, a.path) == At(before, a.path) && At(fs, BarrierPath(a.path)) == At(before, BarrierPath(a.path));
    CheckoutIsPresent(codec, fs, a.path, p.alias, p.remote);
  }

  lemma NotInCandidate(actions: seq<Action>, a: Action, q: Abs)
    requires NoneOverlap(actions) && a in actions && a.kind == NoAction && a.state == Present && a.path <= q
    ensures !InCandidate(Candidates(actions), q)
  {
    CandidatesAre(actions);
    if InCandidate(Candidates(actions), q) {
      var c :| c in Candidates(actions) && c.path <= q;
      var i :| 0 <= i < |actions| && actions[i] == a;
      var j :| 0 <= j < |actions| && actions[j] == c;
      SiblingsApart(a.path, c.path, q);
      OverlapsIsComparable(a.path, c.path);
      OverlapsIsComparable(c.path, a.path);
      NoOverlapAt(actions, i, j);
    }
  }

  lemma NoOverlapAt(actions: seq<Action>, i: nat, j: nat)
    requires NoneOverlap(actions) && i < |actions| && j < |actions|
    ensures i < j ==> NoOverlap(actions[i], actions[j])
    ensures j < i ==> NoOverlap(actions[j], actions[i])
  {
  }

  lemma CloneIsCandidate(codec: Codec, fs: Fs, root: Option<Abs>, p: Project)
    requires Projects.Complete(p)
    ensures Classify(codec, fs, root, p).kind == CloneIt ==> IsCandidate(Classify(codec, fs, root, p))
  {
  }

  /** Each selected project after the placeholders were written. */
  lemma SelectedIsLaidOut(codec: Codec, before: Fs, fs: Fs, root: Option<Abs>, rows: Rows, request: Request,
                          actions: seq<Action>, id: nat)
    requires Placeholders.Lawful(codec) && Sound(rows) && IsRegistryPlan(actions, codec, before, root, rows, request)
    requires NoneOverlap(actions) && OnlyInside(fs, before, Candidates(actions))
    requires forall a <- Candidates(actions) :: Owned(codec, fs, a)
    requires id in rows && Selects(request, rows[id]) && !Refusals(actions)
    ensures IsLaidOut(Classify(codec, fs, root, rows[id]))
  {
    var a := Classify(codec, before, root, rows[id]);
    assert a in actions;
    if a.kind == CloneIt {
      CandidatesAre(actions);
      CloneIsCandidate(codec, before, root, rows[id]);
      OwnedIsPlannedAsPlaceholder(codec, before, fs, root, rows[id]);
    } else {
      PresentIsStillThere(codec, before, fs, root, rows[id], actions);
    }
  }

  /** Recording the canonical path of a project changes nothing for its next plan. */
  lemma SameJudgement(codec: Codec, fs: Fs, root: Option<Abs>, p: Project)
    requires Projects.Complete(p)
    ensures p.source == CANONICAL ==>
        IsLaidOut(Classify(codec, fs, root, AtCanonical(p))) == IsLaidOut(Classify(codec, fs, root, p))
  {
  }

  lemma AllLaidOut(codec: Codec, before: Fs, fs: Fs, root: Option<Abs>, rows: Rows, after: Rows, request: Request,
                   actions: seq<Action>)
    requires Placeholders.Lawful(codec) && Sound(rows) && IsRegistryPlan(actions, codec, before, root, rows, request)
    requires NoneOverlap(actions) && OnlyInside(fs, before, Candidates(actions)) && !Refusals(actions)
    requires forall a <- Candidates(actions) :: Owned(codec, fs, a)
    requires AllActions(actions, codec, before, root, rows) && Sound(after) && after == PlacedRows(rows, actions)
    ensures AllHydrated(codec, before, root, request, rows, after) && LaidOut(codec, fs, root, after, request)
  {
    PlacedKeys(rows, actions, codec, before, root);
    forall id | id in rows ensures after[id] == Hydrated(codec, before, root, request, rows[id]) {
      PlacedIsHydrated(codec, before, root, rows, request, actions, id);
    }
    forall id | id in after && Selects(request, after[id]) ensures IsLaidOut(Classify(codec, fs, root, after[id])) {
      PlacedIsHydrated(codec, before, root, rows, request, actions, id);
      SelectedIsLaidOut(codec, before, fs, root, rows, request, actions, id);
      SameJudgement(codec, fs, root, rows[id]);
    }
  }

  // ----- planning again -----

  /** The first plan's action for the row of an action of a later plan. */
  lemma EarlierAction(codec: Codec, before: Fs, fs: Fs, root: Option<Abs>, rows: Rows, after: Rows, request: Request,
                      actions: seq<Action>, again: seq<Action>, k: nat) returns (i: nat)
    requires WentWell(codec, before, fs, root, rows, after, request, actions)
    requires IsRegistryPlan(again, codec, fs, root, after, request) && k < |again|
    ensures again[k].projectID in rows && again[k].projectID in after
    ensures after[again[k].projectID] == Hydrated(codec, before, root, request, rows[again[k].projectID])
    ensures i < |actions| && actions[i] == Classify(codec, before, root, rows[again[k].projectID])
    ensures again[k] == Classify(codec, fs, root, after[again[k].projectID])
    ensures Selects(request, rows[again[k].projectID]) && actions[i].kind != Refuse
  {
    var a := again[k];
    assert a in again;
    if a.kind == Refuse && a.state == UnknownProject && !IsActionFor(a, codec, fs, root, after) {
      SameNames(codec, before, fs, root, rows, after, request, actions, a.alias);
      assert false;
    }
    assert Classify(codec, before, root, rows[a.projectID]) in actions;
    i :| 0 <= i < |actions| && actions[i] == Classify(codec, before, root, rows[a.projectID]);
  }

  /** An alias asked for is still some project's. */
  lemma SameNames(codec: Codec, before: Fs, fs: Fs, root: Option<Abs>, rows: Rows, after: Rows, request: Request,
                  actions: seq<Action>, alias: string)
    requires WentWell(codec, before, fs, root, rows, after, request, actions)
    requires request.ByAlias? && alias in request.aliases
    ensures exists id <- after :: after[id].alias == alias
  {
    var a :| a in actions && a.alias == alias;
    assert IsActionFor(a, codec, before, root, rows);
    var p := rows[a.projectID];
    assert p.alias == alias && after[a.projectID] == Hydrated(codec, before, root, request, p);
  }

  /** What a run that went through leaves behind. */
  ghost predicate WentWell(codec: Codec, before: Fs, fs: Fs, root: Option<Abs>, rows: Rows, after: Rows,
                           request: Request, actions: seq<Action>)
  {
    && Placeholders.Lawful(codec) && Rooted(fs) && Sound(rows) && Sound(after)
    && IsRegistryPlan(actions, codec, before, root, rows, request) && AllActions(actions, codec, before, root, rows)
    && !Refusals(actions) && NoneOverlap(actions)
    && PathsPass(actions, fs, root) && AllOwned(codec, fs, actions) && OnlyInside(fs, before, Candidates(actions))
    && AllHydrated(codec, before, root, request, rows, after) && LaidOut(codec, fs, root, after, request)
  }

  /** What a later action for a project must be, given the one that was carried out. */
  ghost predicate SameAgain(codec: Codec, fs: Fs, root: Option<Abs>, first: Action, again: Action) {
    && first.path == again.path && first.alias == again.alias && TakesPath(first)
    && again.kind != Refuse && !Moves(again)
    && (IsCandidate(again) ==> WithinRoot(fs, root, again.path) && Owned(codec, fs, again))
  }

  lemma PresentAgain(codec: Codec, before: Fs, fs: Fs, root: Option<Abs>, request: Request, p: Project,
                     actions: seq<Action>)
    requires Projects.Complete(p) && NoneOverlap(actions) && OnlyInside(fs, before, Candidates(actions))
    requires Classify(codec, before, root, p) in actions && Classify(codec, before, root, p).kind == NoAction
    ensures SameAgain(codec, fs, root, Classify(codec, before, root, p),
                      Classify(codec, fs, root, Hydrated(codec, before, root, request, p)))
  {
    PresentIsStillThere(codec, before, fs, root, p, actions);
    PresentWasCheckout(codec, before, root, p);
  }

  lemma PlaceholderAgain(codec: Codec, before: Fs, fs: Fs, root: Option<Abs>, request: Request, p: Project,
                         actions: seq<Action>)
    requires Placeholders.Lawful(codec) && Projects.Complete(p) && Selects(request, p)
    requires PathsPass(actions, fs, root) && AllOwned(codec, fs, actions)
    requires Classify(codec, before, root, p) in actions && Classify(codec, before, root, p).kind == CloneIt
    ensures SameAgain(codec, fs, root, Classify(codec, before, root, p),
                      Classify(codec, fs, root, Hydrated(codec, before, root, request, p)))
  {
    CloneIsCandidate(codec, before, root, p);
    OwnedIsPlannedAsPlaceholder(codec, before, fs, root, p);
  }

  lemma PlannedAgain(codec: Codec, before: Fs, fs: Fs, root: Option<Abs>, rows: Rows, after: Rows, request: Request,
                     actions: seq<Action>, again: seq<Action>, k: nat) returns (i: nat)
    requires WentWell(codec, before, fs, root, rows, after, request, actions)
    requires IsRegistryPlan(again, codec, fs, root, after, request) && k < |again|
    ensures i < |actions| && SameAgain(codec, fs, root, actions[i], again[k])
  {
    i := EarlierAction(codec, before, fs, root, rows, after, request, actions, again, k);
    var p := rows[again[k].projectID];
    assert actions[i] in actions;
    if actions[i].kind == NoAction {
      PresentAgain(codec, before, fs, root, request, p, actions);
    } else {
      PlaceholderAgain(codec, before, fs, root, request, p, actions);
    }
  }

  lemma NoOverlapAgain(codec: Codec, fs: Fs, root: Option<Abs>, actions: seq<Action>, again: seq<Action>, i: nat,
                       j: nat, k: nat, l: nat)
    requires NoneOverlap(actions) && OnePerAlias(again) && k < l < |again| && i < |actions| && j < |actions|
    requires SameAgain(codec, fs, root, actions[i], again[k]) && SameAgain(codec, fs, root, actions[j], again[l])
    ensures NoOverlap(again[k], again[l])
  {
    NoOverlapAt(actions, i, j);
    OverlapsIsComparable(actions[i].path, actions[j].path);
    OverlapsIsComparable(actions[j].path, actions[i].path);
  }

  /** Carrying out such a plan writes and records nothing. */
  ghost predicate NothingToWrite(again: seq<Action>, codec: Codec, fs: Fs, root: Option<Abs>, rows: Rows) {
    && !Refusals(again) && PathsPass(again, fs, root) && AllOwned(codec, fs, again)
    && (forall a <- again :: !Moves(a)) && PlacedRows(rows, again) == rows
  }

  /** Every plan for the request is one. */
  ghost predicate Done(codec: Codec, fs: Fs, root: Option<Abs>, rows: Rows, request: Request)
    requires Sound(rows)
  {
    forall again: seq<Action> {:trigger IsRegistryPlan(again, codec, fs, root, rows, request)} ::
      IsRegistryPlan(again, codec, fs, root, rows, request) ==> NothingToWrite(again, codec, fs, root, rows)
  }

  lemma NoneOverlapAgain(codec: Codec, before: Fs, fs: Fs, root: Option<Abs>, rows: Rows, after: Rows,
                         request: Request, actions: seq<Action>, again: seq<Action>)
    requires WentWell(codec, before, fs, root, rows, after, request, actions)
    requires IsRegistryPlan(again, codec, fs, root, after, request)
    ensures NoneOverlap(again)
  {
    forall k, l | 0 <= k < l < |again| ensures NoOverlap(again[k], again[l]) {
      var i := PlannedAgain(codec, before, fs, root, rows, after, request, actions, again, k);
      var j := PlannedAgain(codec, before, fs, root, rows, after, request, actions, again, l);
      NoOverlapAgain(codec, fs, root, actions, again, i, j, k, l);
    }
  }

  predicate NothingFor(a: Action, codec: Codec, fs: Fs, root: Option<Abs>) {
    && a.kind != Refuse && !Moves(a)
    && (IsCandidate(a) ==> WithinRoot(fs, root, a.path) && Owned(codec, fs, a))
  }

  lemma NothingForEach(again: seq<Action>, codec: Codec, fs: Fs, root: Option<Abs>, rows: Rows)
    requires NoneOverlap(again) && forall a <- again :: NothingFor(a, codec, fs, root)
    ensures NothingToWrite(again, codec, fs, root, rows)
  {
    NoneMoves(rows, again);
  }

  lemma AgainIsNothing(codec: Codec, before: Fs, fs: Fs, root: Option<Abs>, rows: Rows, after: Rows, request: Request,
                       actions: seq<Action>, again: seq<Action>)
    requires WentWell(codec, before, fs, root, rows, after, request, actions)
    requires IsRegistryPlan(again, codec, fs, root, after, request)
    ensures NothingToWrite(again, codec, fs, root, after)
  {
    NoneOverlapAgain(codec, before, fs, root, rows, after, request, actions, again);
    forall a | a in again ensures NothingFor(a, codec, fs, root) {
      var k :| 0 <= k < |again| && again[k] == a;
      var i := PlannedAgain(codec, before, fs, root, rows, after, request, actions, again, k);
    }
    NothingForEach(again, codec, fs, root, after);
  }

  lemma {:induction false} NoneMoves(rows: Rows, actions: seq<Action>)
    requires forall a <- actions :: !Moves(a)
    ensures PlacedRows(rows, actions) == rows && MovesIn(actions) == 0
  {
    if actions != [] {
      assert actions[|actions| - 1] in actions;
      NoneMoves(rows, actions[..|actions| - 1]);
    }
  }

  lemma WentWellIsDone(codec: Codec, before: Fs, fs: Fs, root: Option<Abs>, rows: Rows, after: Rows, request: Request,
                       actions: seq<Action>)
    requires WentWell(codec, before, fs, root, rows, after, request, actions)
    ensures Done(codec, fs, root, after, request)
  {
    forall again: seq<Action> | IsRegistryPlan(again, codec, fs, root, after, request)
      ensures NothingToWrite(again, codec, fs, root, after)
    {
      AgainIsNothing(codec, before, fs, root, rows, after, request, actions, again);
    }
  }

  /** `PlaceholdersRegistry`: it plans, writes the placeholders, and records the places.  After a success every selected
      project is present or has its placeholder, planning again says so, and running it again succeeds and changes
      nothing.  If one cannot be written, those made before it stay, and none is reported. */
  method PlaceholdersRegistry(codec: Codec, disk: Disk, root: Option<Abs>, store: ProjectStore, request: Request)
    returns (error: Option<PlaceholderError>, written: seq<Action>, ghost actions: seq<Action>,
             ghost made: seq<Action>, ghost n: nat)
    requires store.Valid() && disk.Valid() && Placeholders.Lawful(codec)
    modifies store, disk
    ensures store.Valid() && disk.Valid() && (error == Some(PlaceholderError.NoName) <==> Unnamed(request))
    ensures error != Some(PlaceholderError.NoName) ==>
        IsRegistryPlan(actions, codec, old(disk.fs), root, old(store.rows), request)
    ensures error == Some(PlaceholderError.NoName) || error == Some(PlaceholderError.Blocked) ==>
        disk.fs == old(disk.fs) && store.rows == old(store.rows) && written == []
    ensures !Unnamed(request) && SomeMisplaced(root, old(store.rows), request) ==>
        error == Some(PlaceholderError.Blocked)
    ensures error == Some(NotWritten) ==> store.rows == old(store.rows)
    ensures error == Some(NotWritten) && !PathsPass(actions, old(disk.fs), root) ==> disk.fs == old(disk.fs)
    ensures error == Some(NotRecorded) ==> n < |actions| && store.rows == PlacedRows(old(store.rows), actions[..n])
    ensures made <= Candidates(actions) && OnlyInside(disk.fs, old(disk.fs), Candidates(actions))
    ensures forall a <- made :: Owned(codec, disk.fs, a)
    ensures written == if error == Some(NotWritten) then [] else made
    ensures error.None? || error == Some(NotRecorded) ==> written == ClonesOf(actions)
    ensures error.None? ==>
        && AllHydrated(codec, old(disk.fs), root, request, old(store.rows), store.rows)
        && LaidOut(codec, disk.fs, root, store.rows, request) && Done(codec, disk.fs, root, store.rows, request)
    ensures Done(codec, old(disk.fs), root, old(store.rows), request) && !Unnamed(request) ==>
        error.None? && disk.fs == old(disk.fs) && store.rows == old(store.rows)
  {
    written, actions, made, n := [], [], [], 0;
    var plan := PlanRegistry(codec, disk, root, store, request);
    if plan.None? { return Some(PlaceholderError.NoName), written, actions, made, n; }
    actions := plan.value;
    OutsideAreMisplaced(actions, codec, disk.fs, root, store.rows, request);
    if Refusals(plan.value) { return Some(PlaceholderError.Blocked), written, actions, made, n; }
    NotRefused(actions, codec, disk.fs, root, store.rows, request);
    CandidatesAreClones(actions, codec, disk.fs, root, store.rows);
    error, written, made, n := WriteAndRecord(codec, disk, root, store, request, plan.value);
  }

  /** The part of it after the plan. */
  method WriteAndRecord(codec: Codec, disk: Disk, root: Option<Abs>, store: ProjectStore, ghost request: Request,
                        actions: seq<Action>)
    returns (error: Option<PlaceholderError>, written: seq<Action>, ghost made: seq<Action>, ghost n: nat)
    requires store.Valid() && disk.Valid() && Placeholders.Lawful(codec) && !Refusals(actions)
    requires IsRegistryPlan(actions, codec, disk.fs, root, store.rows, request)
    modifies store, disk
    ensures store.Valid() && disk.Valid()
    ensures error.None? || error == Some(NotWritten) || error == Some(NotRecorded)
    ensures error == Some(NotWritten) ==> store.rows == old(store.rows)
    ensures error == Some(NotWritten) && !PathsPass(actions, old(disk.fs), root) ==> disk.fs == old(disk.fs)
    ensures error == Some(NotRecorded) ==> n < |actions| && store.rows == PlacedRows(old(store.rows), actions[..n])
    ensures made <= Candidates(actions) && OnlyInside(disk.fs, old(disk.fs), Candidates(actions))
    ensures forall a <- made :: Owned(codec, disk.fs, a)
    ensures written == if error == Some(NotWritten) then [] else made
    ensures error.None? || error == Some(NotRecorded) ==> written == Candidates(actions)
    ensures error.None? ==>
        && AllHydrated(codec, old(disk.fs), root, request, old(store.rows), store.rows)
        && LaidOut(codec, disk.fs, root, store.rows, request) && Done(codec, disk.fs, root, store.rows, request)
    ensures NothingToWrite(actions, codec, old(disk.fs), root, old(store.rows)) ==>
        error.None? && disk.fs == old(disk.fs) && store.rows == old(store.rows)
  {
    ghost var rows, before := store.rows, disk.fs;
    n := 0;
    NotRefused(actions, codec, before, root, rows, request);
    var ok;
    ok, written := Materialize(disk, codec, root, actions);
    made := written;
    if !ok { return Some(NotWritten), [], made, n; }
    ok, n := PersistPlacements(store, actions, codec, before, root);
    if !ok { return Some(NotRecorded), written, made, n; }
    assert actions[..|actions|] == actions;
    CandidatesAre(actions);
    AllLaidOut(codec, before, disk.fs, root, rows, store.rows, request, actions);
    WentWellIsDone(codec, before, disk.fs, root, rows, store.rows, request, actions);
    return None, written, made, n;
  }

  /** What a plan has placeholders written for is what it would clone. */
  lemma {:induction false} CandidatesAreClones(actions: seq<Action>, codec: Codec, fs: Fs, root: Option<Abs>,
                                               rows: Rows)
    requires Sound(rows) && AllActions(actions, codec, fs, root, rows)
    ensures Candidates(actions) == ClonesOf(actions)
  {
    if actions != [] {
      var n := |actions| - 1;
      assert actions[n] in actions && IsActionFor(actions[n], codec, fs, root, rows);
      CandidatesAreClones(actions[..n], codec, fs, root, rows);
    }
  }

  lemma NotRefused(actions: seq<Action>, codec: Codec, fs: Fs, root: Option<Abs>, rows: Rows, request: Request)
    requires Sound(rows) && IsRegistryPlan(actions, codec, fs, root, rows, request) && !Refusals(actions)
    ensures AllActions(actions, codec, fs, root, rows)
  {
  }
}
