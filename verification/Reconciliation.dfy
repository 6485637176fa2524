/** The dry run: a second implementation of the planner's decision, with its checks in another order. */
module Reconciliation {
  import opened Paths
  import opened Hosts
  import opened Projects
  import opened Manifest
  import opened PlanImport
  import opened ConflictFree

  datatype DriftKind = DriftMissing | DriftMoved | DriftUnchanged | DriftConflicting | DriftAdded

  datatype Drift = Drift(kind: DriftKind, projectID: nat, identity: string, alias: string, desiredLocal: Abs,
      cloneURL: string, observed: Place)

  /** The drifts that are conflicts, in order. */
  function Conflicts(drifts: seq<Drift>): (conflicts: seq<Drift>) {
    if drifts == [] then [] else
      var n := |drifts| - 1;
      Conflicts(drifts[..n]) + if drifts[n].kind == DriftConflicting then [drifts[n]] else []
  }

  lemma {:induction false} SomeConflict(drifts: seq<Drift>)
    ensures Conflicts(drifts) != [] <==> exists d <- drifts :: d.kind == DriftConflicting
  {
    if drifts != [] {
      var n := |drifts| - 1;
      SomeConflict(drifts[..n]);
      assert drifts == drifts[..n] + [drifts[n]];
    }
  }

  lemma OneMoreDrift(drifts: seq<Drift>, d: Drift)
    ensures Conflicts(drifts + [d]) == Conflicts(drifts) + if d.kind == DriftConflicting then [d] else []
  {
    assert (drifts + [d])[..|drifts|] == drifts;
  }

  class DriftPlan {
    var drifts: seq<Drift>
    var blockers: seq<Drift>
    var blocked: bool

    constructor ()
      ensures drifts == [] && blockers == [] && !blocked
    {
      drifts, blockers, blocked := [], [], false;
    }

    /** A plan is blocked once it has a conflict, and its blockers are its conflicts, in order. */
    ghost predicate Valid() reads this { blockers == Conflicts(drifts) && (blocked <==> blockers != []) }

    /** `addConflict` */
    method AddConflict(drift: Drift)
      requires Valid()
      modifies this
      ensures Valid() && blocked && drifts == old(drifts) + [drift.(kind := DriftConflicting)]
      ensures blockers == old(blockers) + [drift.(kind := DriftConflicting)]
    {
      var conflict := drift.(kind := DriftConflicting);
      OneMoreDrift(drifts, conflict);
      drifts, blockers, blocked := drifts + [conflict], blockers + [conflict], true;
    }

    method Add(drift: Drift)
      requires Valid() && drift.kind != DriftConflicting
      modifies this
      ensures Valid() && blocked == old(blocked) && drifts == old(drifts) + [drift]
    {
      OneMoreDrift(drifts, drift);
      drifts := drifts + [drift];
    }
  }

  // ----- one entry of the dry run -----

  function DryDesired(host: Host, root: Abs, e: Entry): Abs
    requires EntryOk(e)
  {
    Canonical(host, root + Below(e))
  }

  predicate AliasConflict(s: PlanState, e: Entry) { e.alias in s.aliasOwner && s.aliasOwner[e.alias] != e.identity }

  ghost predicate PathTaken(host: Host, root: Abs, s: PlanState, e: Entry)
    requires EntryOk(e)
  {
    var desired := DryDesired(host, root, e);
    (desired in s.seenPaths && s.seenPaths[desired] != e.identity) || Nests(s.seenPaths, desired, e.identity)
  }

  predicate DryWithin(host: Host, root: Abs, e: Entry)
    requires EntryOk(e)
  {
    PathWithinRoot(host, Canonical(host, root), DryDesired(host, root, e))
  }

  /** The state after an entry: unlike in the planner, a taken alias does not keep the path from being recorded, nor a
      taken path the alias. */
  ghost function DryNext(host: Host, root: Abs, s: PlanState, e: Entry): PlanState
    requires EntryOk(e)
  {
    var after := s.(identities := s.identities + {e.identity});
    if e.identity in s.identities || !DryWithin(host, root, e) then after
    else after.(
      aliasOwner := if AliasConflict(s, e) then s.aliasOwner else s.aliasOwner[e.alias := e.identity],
      seenPaths := if PathTaken(host, root, s, e) then s.seenPaths
          else s.seenPaths[DryDesired(host, root, e) := e.identity])
  }

  /** Whether the desired directory is not free; here an existing empty workspace root is in the way as well. */
  predicate DirectoryTaken(host: Host, root: Abs, known: Known, e: Entry, desired: Abs)
    requires EntryOk(e) && KnownOk(known)
  {
    && (e.identity in known.byIdentity ==> Canonical(host, known.byIdentity[e.identity].localPath.value) != desired)
    && PathConflict(host, root + Below(e), None)
  }

  ghost function DryKind(host: Host, root: Abs, known: Known, s: PlanState, e: Entry): DriftKind
    requires EntryOk(e) && KnownOk(known)
  {
    var desired := DryDesired(host, root, e);
    if e.identity in s.identities || !DryWithin(host, root, e) || AliasConflict(s, e)
        || PathTaken(host, root, s, e) then
      DriftConflicting
    else if e.identity in known.byIdentity && Canonical(host, CanonicalOf(known.byIdentity[e.identity])) == desired then
      DriftUnchanged
    else if OthersPath(known, desired, e.identity) || DirectoryTaken(host, root, known, e, desired) then
      DriftConflicting
    else if e.identity in known.byIdentity then DriftMoved else DriftMissing
  }

  /** `cloneURLFor` */
  function CloneURLFor(e: Entry): string { if e.hint != "" then e.hint else e.identity }

  /** A conflict that is found before the project's row is looked at. */
  ghost predicate FailsEarly(host: Host, root: Abs, s: PlanState, e: Entry)
    requires EntryOk(e)
  {
    e.identity in s.identities || !DryWithin(host, root, e) || AliasConflict(s, e) || PathTaken(host, root, s, e)
  }

  /** The drift of an entry: it has the entry's project, alias and place; the project's row shows in it if the early
      checks are passed, and there is one. */
  ghost predicate IsDrift(host: Host, root: Abs, known: Known, s: PlanState, e: Entry, d: Drift)
    requires EntryOk(e) && KnownOk(known)
  {
    && d.kind == DryKind(host, root, known, s, e)
    && d.identity == e.identity && d.alias == e.alias && d.desiredLocal == root + Below(e)
    && d.cloneURL == (if e.hint == "" then e.identity else e.hint)
    && if !FailsEarly(host, root, s, e) && e.identity in known.byIdentity then
         d.projectID == known.byIdentity[e.identity].id && d.observed == known.byIdentity[e.identity].localPath
       else d.projectID == 0 && d.observed.None?
  }

  ghost function DryAfter(host: Host, root: Abs, known: Known, entries: seq<Entry>): PlanState
    requires AllOk(entries) && KnownOk(known)
  {
    if entries == [] then Start(known) else
      var n := |entries| - 1;
      DryNext(host, root, DryAfter(host, root, known, entries[..n]), entries[n])
  }

  /** The kinds of drift of all the entries, in order. */
  ghost function DryKinds(host: Host, root: Abs, known: Known, entries: seq<Entry>): (kinds: seq<DriftKind>)
    requires AllOk(entries) && KnownOk(known)
    ensures |kinds| == |entries|
  {
    if entries == [] then [] else
      var n := |entries| - 1;
      DryKinds(host, root, known, entries[..n])
        + [DryKind(host, root, known, DryAfter(host, root, known, entries[..n]), entries[n])]
  }

  // ----- the dry run -----

  /** The checks before the project's row is looked at, and what is recorded whatever they say. */
  method DryChecks(host: Host, root: Abs, s: PlanState, e: Entry, desired: Abs)
    returns (after: PlanState, conflict: bool)
    requires EntryOk(e) && desired == DryDesired(host, root, e)
    ensures after == DryNext(host, root, s, e)
    ensures conflict == (e.identity in s.identities || !DryWithin(host, root, e) || AliasConflict(s, e)
                         || PathTaken(host, root, s, e))
  {
    after := s;
    var compareRoot := CanonicalPath(host, root);
    if e.identity in s.identities {
      assert s.identities + {e.identity} == s.identities;
      return after, true;
    }
    after := after.(identities := after.identities + {e.identity});
    if !PathWithinRoot(host, compareRoot, desired) { return after, true; }
    var aliasConflict := e.alias in s.aliasOwner && s.aliasOwner[e.alias] != e.identity;
    var pathConflict := desired in s.seenPaths && s.seenPaths[desired] != e.identity;
    var nests := FindNested(s.seenPaths, desired, e.identity);
    if !aliasConflict { after := after.(aliasOwner := after.aliasOwner[e.alias := e.identity]); }
    if !pathConflict && !nests { after := after.(seenPaths := after.seenPaths[desired := e.identity]); }
    conflict := aliasConflict || pathConflict || nests;
  }

  /** One turn of the loop over the entries. */
  method DryEntry(host: Host, root: Abs, known: Known, s: PlanState, e: Entry, plan: DriftPlan)
    returns (after: PlanState)
    requires EntryOk(e) && KnownOk(known) && plan.Valid()
    modifies plan
    ensures plan.Valid() && after == DryNext(host, root, s, e)
    ensures |plan.drifts| == |old(plan.drifts)| + 1 && plan.drifts[..|old(plan.drifts)|] == old(plan.drifts)
    ensures IsDrift(host, root, known, s, e, plan.drifts[|old(plan.drifts)|])
  {
    var desiredLocal := root + Below(e);
    var desired := CanonicalPath(host, desiredLocal);
    var drift := Drift(DriftMissing, 0, e.identity, e.alias, desiredLocal, CloneURLFor(e), None);
    var conflict;
    after, conflict := DryChecks(host, root, s, e, desired);
    if conflict {
      plan.AddConflict(drift);
    } else {
      DryPlacement(host, root, known, e, desired, drift, plan);
    }
  }

  /** The part of the turn that looks at the project's row and at its directory. */
  method DryPlacement(host: Host, root: Abs, known: Known, e: Entry, desired: Abs, drift: Drift, plan: DriftPlan)
    requires EntryOk(e) && KnownOk(known) && plan.Valid() && desired == DryDesired(host, root, e)
    requires drift == Drift(DriftMissing, 0, e.identity, e.alias, root + Below(e), CloneURLFor(e), None)
    modifies plan
    ensures plan.Valid() && |plan.drifts| == |old(plan.drifts)| + 1
    ensures plan.drifts[..|old(plan.drifts)|] == old(plan.drifts)
    ensures plan.drifts[|old(plan.drifts)|].(kind := DriftMissing) ==
        if e.identity !in known.byIdentity then drift
        else
          var p := known.byIdentity[e.identity];
          drift.(projectID := p.id, observed := p.localPath)
    ensures plan.drifts[|old(plan.drifts)|].kind ==
        if e.identity in known.byIdentity && Canonical(host, CanonicalOf(known.byIdentity[e.identity])) == desired then
          DriftUnchanged
        else if OthersPath(known, desired, e.identity) || DirectoryTaken(host, root, known, e, desired) then
          DriftConflicting
        else if e.identity in known.byIdentity then DriftMoved else DriftMissing
  {
    if e.identity !in known.byIdentity {
      if desired in known.byPath && known.byPath[desired] != e.identity {
        plan.AddConflict(drift);
        return;
      }
      if PathConflict(host, root + Below(e), None) {
        plan.AddConflict(drift);
        return;
      }
      plan.Add(drift.(kind := DriftMissing));
      return;
    }
    var p := known.byIdentity[e.identity];
    var found := drift.(projectID := p.id, observed := p.localPath);
    var observed := CanonicalPath(host, CanonicalOf(p));
    var local := CanonicalPath(host, p.localPath.value);
    if observed == desired {
      plan.Add(found.(kind := DriftUnchanged));
      return;
    }
    if desired in known.byPath && known.byPath[desired] != e.identity {
      plan.AddConflict(found);
      return;
    }
    if local != desired {
      if PathConflict(host, root + Below(e), None) {
        plan.AddConflict(found);
        return;
      }
    }
    plan.Add(found.(kind := DriftMoved));
  }

  ghost predicate KindsAre(drifts: seq<Drift>, kinds: seq<DriftKind>) {
    |kinds| <= |drifts| && forall i :: 0 <= i < |kinds| ==> drifts[i].kind == kinds[i]
  }

  /** The drift of the i-th entry, in the state that the entries before it leave. */
  ghost predicate DriftAt(host: Host, root: Abs, known: Known, entries: seq<Entry>, i: nat, d: Drift)
    requires AllOk(entries) && KnownOk(known) && i < |entries|
  {
    IsDrift(host, root, known, DryAfter(host, root, known, entries[..i]), entries[i], d)
  }

  ghost predicate AreDrifts(host: Host, root: Abs, known: Known, entries: seq<Entry>, drifts: seq<Drift>)
    requires AllOk(entries) && KnownOk(known)
  {
    && |drifts| == |entries|
    && forall i {:trigger DriftAt(host, root, known, entries, i, drifts[i])} :: 0 <= i < |entries| ==>
         DriftAt(host, root, known, entries, i, drifts[i])
  }

  lemma DriftAtPrefix(host: Host, root: Abs, known: Known, entries: seq<Entry>, m: nat, n: nat, i: nat, d: Drift)
    requires AllOk(entries) && KnownOk(known) && i < m <= |entries| && i < n <= |entries|
    ensures DriftAt(host, root, known, entries[..m], i, d) <==> DriftAt(host, root, known, entries[..n], i, d)
  {
    assert entries[..m][..i] == entries[..i] == entries[..n][..i];
  }

  lemma OneMoreIsDrift(host: Host, root: Abs, known: Known, entries: seq<Entry>, n: nat, before: seq<Drift>,
                       after: seq<Drift>)
    requires AllOk(entries) && KnownOk(known) && n < |entries|
    requires AreDrifts(host, root, known, entries[..n], before) && |after| == n + 1 && after[..n] == before
    requires DriftAt(host, root, known, entries[..n + 1], n, after[n])
    ensures AreDrifts(host, root, known, entries[..n + 1], after)
  {
    forall i | 0 <= i <= n ensures DriftAt(host, root, known, entries[..n + 1], i, after[i]) {
      if i < n {
        assert DriftAt(host, root, known, entries[..n], i, before[i]) && before[i] == after[i];
        DriftAtPrefix(host, root, known, entries, n, n + 1, i, after[i]);
      }
    }
  }

  /** `BuildDryRunPlan`: a drift for every entry, and one for every row whose project is not in the manifest. */
  method BuildDryRunPlan(host: Host, entries: seq<Entry>, projects: seq<Project>, workspaceRoot: Place)
    returns (plan: Option<DriftPlan>)
    requires AllComplete(projects)
    ensures plan.None? <==> workspaceRoot.None? || !AllOk(entries)
    ensures plan.Some? ==> fresh(plan.value) && plan.value.Valid()
    ensures plan.Some? ==>
        var kinds := DryKinds(host, workspaceRoot.value, Knowledge(host, entries, projects), entries);
        && KindsAre(plan.value.drifts, kinds) && (plan.value.blocked <==> DriftConflicting in kinds)
        && |plan.value.drifts| >= |entries|
        && AreDrifts(host, workspaceRoot.value, Knowledge(host, entries, projects), entries,
             plan.value.drifts[..|entries|])
        && plan.value.drifts[|entries|..] == AddedDrifts(WantedAliases(entries), projects)
  {
    if workspaceRoot.None? { return None; }
    var root := workspaceRoot.value;
    var wanted := CollectWanted(entries);
    if wanted.None? { return None; }
    var byIdentity, byPath, aliasOwner := CollectRows(host, wanted.value, projects);
    var seen := CollectSeenPaths(host, wanted.value, projects);
    var known := Known(byIdentity, byPath, aliasOwner, seen);
    assert known == Knowledge(host, entries, projects);
    var p := new DriftPlan();
    DryEntries(host, root, known, entries, p);
    AddedRows(wanted.value, projects, p);
    return Some(p);
  }

  method DryEntries(host: Host, root: Abs, known: Known, entries: seq<Entry>, plan: DriftPlan)
    requires AllOk(entries) && KnownOk(known) && plan.Valid() && plan.drifts == []
    modifies plan
    ensures plan.Valid() && |plan.drifts| == |entries| && KindsAre(plan.drifts, DryKinds(host, root, known, entries))
    ensures AreDrifts(host, root, known, entries, plan.drifts)
    ensures plan.blocked <==> DriftConflicting in DryKinds(host, root, known, entries)
  {
    var s := Start(known);
    for i := 0 to |entries|
      invariant plan.Valid() && s == DryAfter(host, root, known, entries[..i])
      invariant AreDrifts(host, root, known, entries[..i], plan.drifts)
    {
      ghost var before := plan.drifts;
      s := DryEntry(host, root, known, s, entries[i], plan);
      assert entries[..i + 1][..i] == entries[..i];
      OneMoreIsDrift(host, root, known, entries, i, before, plan.drifts);
    }
    assert entries[..|entries|] == entries;
    DriftsHaveKinds(host, root, known, entries, plan.drifts);
    SomeConflict(plan.drifts);
    ConflictIsAKind(plan.drifts, DryKinds(host, root, known, entries));
  }

  ghost predicate HasKinds(drifts: seq<Drift>, kinds: seq<DriftKind>) { |kinds| == |drifts| && KindsAre(drifts, kinds) }

  ghost function KindAt(host: Host, root: Abs, known: Known, entries: seq<Entry>, i: nat): DriftKind
    requires AllOk(entries) && KnownOk(known) && i < |entries|
  {
    DryKind(host, root, known, DryAfter(host, root, known, entries[..i]), entries[i])
  }

  lemma KindAtPrefix(host: Host, root: Abs, known: Known, entries: seq<Entry>, n: nat, i: nat)
    requires AllOk(entries) && KnownOk(known) && i < n <= |entries|
    ensures KindAt(host, root, known, entries[..n], i) == KindAt(host, root, known, entries, i)
  {
    assert entries[..n][..i] == entries[..i];
  }

  lemma {:induction false} DryKindsAt(host: Host, root: Abs, known: Known, entries: seq<Entry>, i: nat)
    requires AllOk(entries) && KnownOk(known) && i < |entries|
    ensures DryKinds(host, root, known, entries)[i] == KindAt(host, root, known, entries, i)
  {
    var n := |entries| - 1;
    if i < n {
      DryKindsAt(host, root, known, entries[..n], i);
      KindAtPrefix(host, root, known, entries, n, i);
    }
  }

  lemma DriftsHaveKinds(host: Host, root: Abs, known: Known, entries: seq<Entry>, drifts: seq<Drift>)
    requires AllOk(entries) && KnownOk(known) && AreDrifts(host, root, known, entries, drifts)
    ensures HasKinds(drifts, DryKinds(host, root, known, entries))
  {
    forall i | 0 <= i < |entries| ensures drifts[i].kind == DryKinds(host, root, known, entries)[i] {
      DryKindsAt(host, root, known, entries, i);
      assert DriftAt(host, root, known, entries, i, drifts[i]);
    }
  }

  lemma ConflictIsAKind(drifts: seq<Drift>, kinds: seq<DriftKind>)
    requires HasKinds(drifts, kinds)
    ensures (exists d <- drifts :: d.kind == DriftConflicting) <==> DriftConflicting in kinds
  {
  }

  /** A drift for each row whose project is not in the manifest. */
  function AddedDrifts(wanted: map<string, string>, projects: seq<Project>): seq<Drift>
    requires AllComplete(projects)
  {
    if projects == [] then [] else
      var p := projects[|projects| - 1];
      AddedDrifts(wanted, projects[..|projects| - 1]) + if p.remote in wanted then [] else
        [Drift(DriftAdded, p.id, p.remote, p.alias, CanonicalOf(p), "", p.localPath)]
  }

  method AddedRows(wanted: map<string, string>, projects: seq<Project>, plan: DriftPlan)
    requires AllComplete(projects) && plan.Valid()
    modifies plan
    ensures plan.Valid() && plan.blocked == old(plan.blocked)
    ensures plan.drifts == old(plan.drifts) + AddedDrifts(wanted, projects)
  {
    for i := 0 to |projects|
      invariant plan.Valid() && plan.blocked == old(plan.blocked)
      invariant plan.drifts == old(plan.drifts) + AddedDrifts(wanted, projects[..i])
    {
      var p := projects[i];
      assert p in projects && projects[..i + 1][..i] == projects[..i];
      if p.remote !in wanted {
        plan.Add(Drift(DriftAdded, p.id, p.remote, p.alias, CanonicalOf(p), "", p.localPath));
      }
    }
    assert projects[..|projects|] == projects;
  }
}
