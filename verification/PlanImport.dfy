/** Planning an import: which entries add a project, which change one, and which conflict. */
module PlanImport {
  import opened Paths
  import opened Hosts
  import opened Projects
  import opened Manifest

  // ----- what the planner knows before it looks at the entries one by one -----

  /** The aliases the manifest wants, by identity; the first entry of an identity counts. */
  function WantedAliases(entries: seq<Entry>): map<string, string> {
    if entries == [] then map[] else
      var last := entries[|entries| - 1];
      var earlier := WantedAliases(entries[..|entries| - 1]);
      if last.identity in earlier then earlier else earlier[last.identity := last.alias]
  }

  datatype Known = Known(byIdentity: map<string, Project>, byPath: map<Abs, string>, aliasOwner: map<string, string>,
                         seenPaths: map<Abs, string>)

  /** `projectCanonicalPath` of a stored row, whose paths are never blank. */
  function CanonicalOf(p: Project): Abs
    requires Complete(p)
  {
    p.canonicalPath.value
  }

  /** A row's local path counts unless its project is in the manifest and nothing is there. */
  predicate LocalCounts(host: Host, wanted: map<string, string>, p: Project)
    requires Complete(p)
  {
    p.remote !in wanted || host.lstat(p.localPath.value) != Missing
  }

  predicate GivesUpAlias(wanted: map<string, string>, p: Project) {
    p.remote in wanted && wanted[p.remote] != p.alias
  }

  function KnowOne(host: Host, wanted: map<string, string>, known: Known, p: Project): Known
    requires Complete(p)
  {
    var canonical := Canonical(host, CanonicalOf(p));
    var local := Canonical(host, p.localPath.value);
    var out := p.remote !in wanted;
    var counts := LocalCounts(host, wanted, p);
    var byPath := if out then known.byPath[canonical := p.remote] else known.byPath;
    var seen := if counts then known.seenPaths[local := p.remote] else known.seenPaths;
    Known(
      known.byIdentity[p.remote := p],
      if counts then byPath[local := p.remote] else byPath,
      if GivesUpAlias(wanted, p) then known.aliasOwner else known.aliasOwner[p.alias := p.remote],
      if out then seen[canonical := p.remote] else seen)
  }

  predicate AllComplete(projects: seq<Project>) { forall p <- projects :: Complete(p) }

  function Know(host: Host, wanted: map<string, string>, projects: seq<Project>): Known
    requires AllComplete(projects)
  {
    if projects == [] then Known(map[], map[], map[], map[]) else
      var n := |projects| - 1;
      KnowOne(host, wanted, Know(host, wanted, projects[..n]), projects[n])
  }

  // ----- one entry -----

  datatype PlanState = PlanState(aliasOwner: map<string, string>, seenPaths: map<Abs, string>, identities: set<string>)

  /** Where the entry's project is to be, for comparison with other paths. */
  function DesiredPath(host: Host, root: Abs, e: Entry): Abs
    requires EntryOk(e)
  {
    Canonical(host, Canonical(host, root) + Below(e))
  }

  /** `PathWithinRoot` */
  predicate PathWithinRoot(host: Host, root: Abs, path: Abs) {
    var r, p := Canonical(host, root), Canonical(host, path);
    p == r || Within(p, r)
  }

  /** It is being a prefix, once the root and the path are resolved. */
  lemma WithinRootIsPrefix(host: Host, root: Abs, e: Entry)
    requires Lawful(host) && EntryOk(e)
    ensures PathWithinRoot(host, Canonical(host, root), DesiredPath(host, root, e)) <==>
            Canonical(host, root) <= Canonical(host, root + Below(e))
  {
    CanonicalTwice(host, root);
    CanonicalBelow(host, root, Below(e));
    CanonicalTwice(host, Canonical(host, root) + Below(e));
    WithinIsProperPrefix(DesiredPath(host, root, e), Canonical(host, root));
  }

  /** `nestedDesiredPathConflict` */
  ghost predicate Nests(seen: map<Abs, string>, path: Abs, identity: string) {
    exists other <- seen :: seen[other] != identity && (Within(path, other) || Within(other, path))
  }

  /** The checks that come before the entry's path is recorded. */
  ghost predicate Placed(host: Host, root: Abs, s: PlanState, e: Entry)
    requires EntryOk(e)
  {
    var desired := DesiredPath(host, root, e);
    && e.identity !in s.identities
    && PathWithinRoot(host, Canonical(host, root), desired)
    && (e.alias in s.aliasOwner ==> s.aliasOwner[e.alias] == e.identity)
    && (desired in s.seenPaths ==> s.seenPaths[desired] == e.identity)
    && !Nests(s.seenPaths, desired, e.identity)
  }

  predicate OthersPath(known: Known, path: Abs, identity: string) {
    path in known.byPath && known.byPath[path] != identity
  }

  function AddOf(root: Abs, e: Entry): Change
    requires EntryOk(e)
  {
    var local := Some(root + Below(e));
    Change(Add, 0, e.identity, e.alias, Below(e), local, local, if e.hint == "" then e.identity else e.hint, [])
  }

  /** What is in the way of adding a project. */
  predicate AddBlocked(host: Host, root: Abs, known: Known, e: Entry)
    requires EntryOk(e)
  {
    OthersPath(known, DesiredPath(host, root, e), e.identity) || PathConflict(host, root + Below(e), Some(root))
  }

  predicate AtDesiredPath(host: Host, root: Abs, e: Entry, p: Project)
    requires EntryOk(e) && Complete(p)
  {
    Canonical(host, CanonicalOf(p)) == DesiredPath(host, root, e)
  }

  /** What is in the way of changing a row's canonical path. */
  predicate MoveBlocked(host: Host, root: Abs, known: Known, e: Entry, p: Project)
    requires EntryOk(e) && Complete(p)
  {
    && !AtDesiredPath(host, root, e, p)
    && (OthersPath(known, DesiredPath(host, root, e), e.identity) ||
        (Canonical(host, p.localPath.value) != DesiredPath(host, root, e) &&
         PathConflict(host, root + Below(e), Some(root))))
  }

  /** A row whose two paths agree and whose directory is missing follows its canonical path. */
  function NewLocal(host: Host, root: Abs, e: Entry, p: Project): Place
    requires EntryOk(e) && Complete(p)
  {
    if p.source == CANONICAL && p.localPath == p.canonicalPath && host.lstat(p.localPath.value) == Missing then
      Some(root + Below(e))
    else p.localPath
  }

  function PlusIf(fields: seq<Field>, condition: bool, field: Field): seq<Field> {
    if condition then fields + [field] else fields
  }

  /** The fields an entry changes. */
  function ChangedFields(e: Entry, p: Project, stays: bool, local: Place): (fields: seq<Field>) {
    PlusIf(PlusIf(PlusIf(PlusIf(PlusIf([], p.alias != e.alias, AliasField), !stays, CanonicalPathField),
      p.source == LOCAL_ONLY, SourceField), p.localPath != local, LocalPathField),
      e.hint != "" && p.cloneURL != e.hint, CloneURLField)
  }

  function UpdateFor(host: Host, root: Abs, e: Entry, p: Project): Change
    requires EntryOk(e) && Complete(p)
  {
    var local := NewLocal(host, root, e, p);
    var stays := AtDesiredPath(host, root, e, p);
    var fields := ChangedFields(e, p, stays, local);
    Change(if fields == [] then Unchanged else Update, p.id, e.identity, e.alias, Below(e), local,
           if stays then p.canonicalPath else Some(root + Below(e)), if e.hint == "" then p.cloneURL
               else e.hint, fields)
  }

  // ----- what a change makes of a row -----

  /** A known project's row as its entry wants it: with no hint it keeps its clone URL; its canonical path is the
      desired one unless it leads there already; its local path is kept, unless the row is canonical, with both paths
      the same, and nothing is there. */
  function Renewed(host: Host, root: Abs, e: Entry, p: Project): Project
    requires EntryOk(e) && Complete(p)
  {
    var place := Some(root + Below(e));
    Project(p.id, e.alias, p.remote, if e.hint == "" then p.cloneURL else e.hint,
      if p.source == CANONICAL && p.localPath == p.canonicalPath && host.lstat(p.localPath.value) == Missing then place
      else p.localPath,
      if Canonical(host, p.canonicalPath.value) == Canonical(host, root + Below(e)) then p.canonicalPath else place,
      CANONICAL)
  }

  /** A new project's row: with no hint it is cloned from its identity. */
  function NewRow(id: nat, root: Abs, e: Entry): Project
    requires EntryOk(e)
  {
    var place := Some(root + Below(e));
    Project(id, e.alias, e.identity, if e.hint == "" then e.identity else e.hint, place, place, CANONICAL)
  }

  predicate AllDifferent(fields: seq<Field>) { forall i, j :: 0 <= i < j < |fields| ==> fields[i] != fields[j] }

  lemma OneMoreField(fields: seq<Field>, condition: bool, field: Field)
    requires AllDifferent(fields) && field !in fields
    ensures AllDifferent(PlusIf(fields, condition, field))
    ensures forall f :: f in PlusIf(fields, condition, field) <==> f in fields || (condition && f == field)
  {
  }

  lemma FieldsAre(e: Entry, p: Project, stays: bool, local: Place)
    ensures
      var fields := ChangedFields(e, p, stays, local);
      && (AliasField in fields <==> p.alias != e.alias) && (CanonicalPathField in fields <==> !stays)
      && (SourceField in fields <==> p.source == LOCAL_ONLY) && (LocalPathField in fields <==> p.localPath != local)
      && (CloneURLField in fields <==> e.hint != "" && p.cloneURL != e.hint) && AllDifferent(fields)
  {
    OneMoreField([], p.alias != e.alias, AliasField);
    var one := PlusIf([], p.alias != e.alias, AliasField);
    OneMoreField(one, !stays, CanonicalPathField);
    var two := PlusIf(one, !stays, CanonicalPathField);
    OneMoreField(two, p.source == LOCAL_ONLY, SourceField);
    var three := PlusIf(two, p.source == LOCAL_ONLY, SourceField);
    OneMoreField(three, p.localPath != local, LocalPathField);
    OneMoreField(PlusIf(three, p.localPath != local, LocalPathField), e.hint != "" && p.cloneURL != e.hint,
        CloneURLField);
  }

  lemma SomeChanged(fields: seq<Field>)
    requires fields != []
    ensures AliasField in fields || CanonicalPathField in fields || SourceField in fields || LocalPathField in fields
         || CloneURLField in fields
  {
    match fields[0]
    case AliasField =>
    case _ => assert fields[0] in fields;
  }

  /** A change for a known project renews its row, and names exactly the fields that differ; there is nothing to do
      exactly if none does. */
  lemma UpdateRenews(host: Host, root: Abs, e: Entry, p: Project)
    requires Lawful(host) && EntryOk(e) && Complete(p) && p.remote == e.identity
    ensures
      var c, now := UpdateFor(host, root, e, p), Renewed(host, root, e, p);
      && FromChange(c) == now && c.desired == Below(e) && (c.action == Unchanged <==> now == p)
      && (c.action == Unchanged || c.action == Update)
      && (AliasField in c.fields <==> now.alias != p.alias)
      && (CanonicalPathField in c.fields <==> now.canonicalPath != p.canonicalPath)
      && (SourceField in c.fields <==> now.source != p.source)
      && (LocalPathField in c.fields <==> now.localPath != p.localPath)
      && (CloneURLField in c.fields <==> now.cloneURL != p.cloneURL)
      && AllDifferent(c.fields)
  {
    CanonicalBelow(host, root, Below(e));
    FieldsAre(e, p, AtDesiredPath(host, root, e, p), NewLocal(host, root, e, p));
    if UpdateFor(host, root, e, p).fields != [] { SomeChanged(UpdateFor(host, root, e, p).fields); }
  }

  lemma AddMakesNewRow(root: Abs, e: Entry, id: nat)
    requires EntryOk(e)
    ensures FromChange(AddOf(root, e)).(id := id) == NewRow(id, root, e)
  {
  }

  /** A known project's row is one of the complete ones. */
  ghost predicate KnownOk(known: Known) { forall identity <- known.byIdentity :: Complete(known.byIdentity[identity]) }

  ghost predicate Blocked(host: Host, root: Abs, known: Known, e: Entry)
    requires EntryOk(e) && KnownOk(known)
  {
    if e.identity in known.byIdentity then MoveBlocked(host, root, known, e, known.byIdentity[e.identity])
    else AddBlocked(host, root, known, e)
  }

  function ChangeOf(host: Host, root: Abs, known: Known, e: Entry): Change
    requires EntryOk(e) && KnownOk(known)
  {
    if e.identity in known.byIdentity then UpdateFor(host, root, e, known.byIdentity[e.identity]) else AddOf(root, e)
  }

  /** The action planned for an entry, and the state for the next one. */
  ghost function Step(host: Host, root: Abs, known: Known, s: PlanState, e: Entry): (PlanState, ChangeAction)
    requires EntryOk(e) && KnownOk(known)
  {
    var after := s.(identities := s.identities + {e.identity});
    if !Placed(host, root, s, e) then (after, Conflict)
    else
      var placed := after.(seenPaths := s.seenPaths[DesiredPath(host, root, e) := e.identity]);
      if Blocked(host, root, known, e) then (placed, Conflict)
      else (placed.(aliasOwner := s.aliasOwner[e.alias := e.identity]), ChangeOf(host, root, known, e).action)
  }

  ghost predicate Clear(host: Host, root: Abs, known: Known, s: PlanState, e: Entry)
    requires EntryOk(e) && KnownOk(known)
  {
    Placed(host, root, s, e) && !Blocked(host, root, known, e)
  }

  predicate AllOk(entries: seq<Entry>) { forall e <- entries :: EntryOk(e) }

  function Start(known: Known): PlanState { PlanState(known.aliasOwner, known.seenPaths, {}) }

  /** The state after all the entries. */
  ghost function After(host: Host, root: Abs, known: Known, entries: seq<Entry>): PlanState
    requires AllOk(entries) && KnownOk(known)
  {
    if entries == [] then Start(known) else
      var n := |entries| - 1;
      Step(host, root, known, After(host, root, known, entries[..n]), entries[n]).0
  }

  lemma {:induction false} KnowIsOk(host: Host, wanted: map<string, string>, projects: seq<Project>)
    requires AllComplete(projects)
    ensures KnownOk(Know(host, wanted, projects))
  {
    if projects != [] { KnowIsOk(host, wanted, projects[..|projects| - 1]); }
  }

  // ----- the plan -----

  function Knowledge(host: Host, entries: seq<Entry>, projects: seq<Project>): (known: Known)
    requires AllComplete(projects)
    ensures KnownOk(known)
  {
    KnowIsOk(host, WantedAliases(entries), projects);
    Know(host, WantedAliases(entries), projects)
  }

  /** The change a plan has for an entry: a conflict exactly if the entry is not clear. */
  ghost predicate Planned(host: Host, root: Abs, known: Known, s: PlanState, e: Entry, change: Change)
    requires EntryOk(e) && KnownOk(known)
  {
    if Clear(host, root, known, s, e) then change == ChangeOf(host, root, known, e)
    else change.action == Conflict && change.identity == e.identity && change.alias == e.alias
  }

  ghost predicate PlanFor(host: Host, root: Abs, known: Known, entries: seq<Entry>, changes: seq<Change>)
    requires AllOk(entries) && KnownOk(known)
  {
    && |changes| == |entries|
    && (entries == [] ||
        var n := |entries| - 1;
        && PlanFor(host, root, known, entries[..n], changes[..n])
        && Planned(host, root, known, After(host, root, known, entries[..n]), entries[n], changes[n]))
  }

  ghost predicate IsPlan(host: Host, root: Abs, entries: seq<Entry>, projects: seq<Project>, changes: seq<Change>)
    requires AllOk(entries) && AllComplete(projects)
  {
    PlanFor(host, root, Knowledge(host, entries, projects), entries, changes)
  }

  lemma {:induction false} PlanPrefix(host: Host, root: Abs, known: Known, entries: seq<Entry>, changes: seq<Change>,
                                      n: nat)
    requires AllOk(entries) && KnownOk(known) && n <= |entries| && PlanFor(host, root, known, entries, changes)
    ensures |changes| == |entries| && PlanFor(host, root, known, entries[..n], changes[..n])
  {
    if n == |entries| {
      assert entries[..n] == entries && changes[..n] == changes;
    } else {
      var last := |entries| - 1;
      PlanPrefix(host, root, known, entries[..last], changes[..last], n);
      assert entries[..last][..n] == entries[..n] && changes[..last][..n] == changes[..n];
    }
  }

  /** `nestedDesiredPathConflict`: the answer does not depend on the order the map is gone through. */
  method FindNested(seen: map<Abs, string>, path: Abs, identity: string) returns (nests: bool)
    ensures nests <==> Nests(seen, path, identity)
  {
    var left := seen.Keys;
    while left != {}
      invariant left <= seen.Keys
      invariant forall other :: other in seen && other !in left ==>
          seen[other] == identity || !(Within(path, other) || Within(other, path))
    {
      var other :| other in left;
      left := left - {other};
      if seen[other] != identity && (Within(other, path) || Within(path, other)) { return true; }
    }
    return false;
  }

  method CollectWanted(entries: seq<Entry>) returns (wanted: Option<map<string, string>>)
    ensures wanted == if AllOk(entries) then Some(WantedAliases(entries)) else None
  {
    var aliases := map[];
    for i := 0 to |entries|
      invariant aliases == WantedAliases(entries[..i]) && AllOk(entries[..i])
    {
      if !EntryOk(entries[i]) {
        assert entries[i] in entries;
        return None;
      }
      assert entries[..i + 1][..i] == entries[..i];
      if entries[i].identity !in aliases { aliases := aliases[entries[i].identity := entries[i].alias]; }
    }
    assert entries[..|entries|] == entries;
    return Some(aliases);
  }

  /** The first loop over the rows. */
  method CollectRows(host: Host, wanted: map<string, string>, projects: seq<Project>)
    returns (byIdentity: map<string, Project>, byPath: map<Abs, string>, aliasOwner: map<string, string>)
    requires AllComplete(projects)
    ensures
      var known := Know(host, wanted, projects);
      byIdentity == known.byIdentity && byPath == known.byPath && aliasOwner == known.aliasOwner
  {
    byIdentity, byPath, aliasOwner := map[], map[], map[];
    for i := 0 to |projects|
      invariant
        var known := Know(host, wanted, projects[..i]);
        byIdentity == known.byIdentity && byPath == known.byPath && aliasOwner == known.aliasOwner
    {
      assert projects[..i + 1][..i] == projects[..i];
      var p := projects[i];
      assert p in projects;
      byIdentity := byIdentity[p.remote := p];
      var canonical := CanonicalPath(host, CanonicalOf(p));
      if p.remote !in wanted { byPath := byPath[canonical := p.remote]; }
      var local := CanonicalPath(host, p.localPath.value);
      if LocalCounts(host, wanted, p) { byPath := byPath[local := p.remote]; }
      if !GivesUpAlias(wanted, p) { aliasOwner := aliasOwner[p.alias := p.remote]; }
    }
    assert projects[..|projects|] == projects;
  }

  /** The second loop over the rows. */
  method CollectSeenPaths(host: Host, wanted: map<string, string>, projects: seq<Project>)
    returns (seen: map<Abs, string>)
    requires AllComplete(projects)
    ensures seen == Know(host, wanted, projects).seenPaths
  {
    seen := map[];
    for i := 0 to |projects|
      invariant seen == Know(host, wanted, projects[..i]).seenPaths
    {
      assert projects[..i + 1][..i] == projects[..i];
      var p := projects[i];
      assert p in projects;
      var local := CanonicalPath(host, p.localPath.value);
      if LocalCounts(host, wanted, p) { seen := seen[local := p.remote]; }
      var canonical := CanonicalPath(host, CanonicalOf(p));
      if p.remote !in wanted { seen := seen[canonical := p.remote]; }
    }
    assert projects[..|projects|] == projects;
  }

  /** The change for a known project, if nothing is in the way; it collects the fields that differ. */
  method PlanUpdate(host: Host, root: Abs, known: Known, desired: Abs, e: Entry, p: Project)
    returns (change: Option<Change>)
    requires EntryOk(e) && Complete(p) && desired == DesiredPath(host, root, e)
    ensures change == if MoveBlocked(host, root, known, e, p) then None else Some(UpdateFor(host, root, e, p))
    ensures Lawful(host) && p.remote == e.identity && change.Some? ==>
        FromChange(change.value) == Renewed(host, root, e, p)
  {
    if Lawful(host) && p.remote == e.identity { UpdateRenews(host, root, e, p); }
    var desiredLocal := root + Below(e);
    var local := p.localPath;
    if p.source == CANONICAL && p.localPath == p.canonicalPath && host.lstat(p.localPath.value) == Missing {
      local := Some(desiredLocal);
    }
    var cloneURL := if e.hint == "" then p.cloneURL else e.hint;
    var fields := [];
    if p.alias != e.alias { fields := fields + [AliasField]; }
    var observed := CanonicalPath(host, CanonicalOf(p));
    var localCompare := CanonicalPath(host, p.localPath.value);
    var canonical := Some(desiredLocal);
    if observed != desired {
      if desired in known.byPath && known.byPath[desired] != e.identity { return None; }
      if localCompare != desired {
        if PathConflict(host, desiredLocal, Some(root)) { return None; }
      }
      fields := fields + [CanonicalPathField];
    } else {
      canonical := p.canonicalPath;
    }
    if p.source == LOCAL_ONLY { fields := fields + [SourceField]; }
    if p.localPath != local { fields := fields + [LocalPathField]; }
    if e.hint != "" && p.cloneURL != e.hint { fields := fields + [CloneURLField]; }
    var action := if fields == [] then Unchanged else Update;
    return Some(Change(action, p.id, e.identity, e.alias, Below(e), local, canonical, cloneURL, fields));
  }

  /** One turn of the loop over the entries. */
  method PlanEntry(host: Host, root: Abs, compareRoot: Abs, known: Known, s: PlanState, e: Entry)
    returns (after: PlanState, change: Change)
    requires EntryOk(e) && KnownOk(known) && compareRoot == Canonical(host, root)
    ensures after == Step(host, root, known, s, e).0 && Planned(host, root, known, s, e, change)
    ensures Lawful(host) && !(Canonical(host, root) <= Canonical(host, root + Below(e))) ==> change.action == Conflict
  {
    if Lawful(host) { WithinRootIsPrefix(host, root, e); }
    after := s;
    var desired := CanonicalPath(host, compareRoot + Below(e));
    change := AddOf(root, e).(action := Conflict);
    if e.identity in s.identities {
      assert s.identities + {e.identity} == s.identities;
      return;
    }
    after := after.(identities := after.identities + {e.identity});
    var within := PathWithinRoot(host, compareRoot, desired);
    if !within { return; }
    if e.alias in s.aliasOwner && s.aliasOwner[e.alias] != e.identity { return; }
    var pathConflict := desired in s.seenPaths && s.seenPaths[desired] != e.identity;
    var nests := FindNested(s.seenPaths, desired, e.identity);
    if pathConflict { return; }
    if nests { return; }
    after := after.(seenPaths := after.seenPaths[desired := e.identity]);
    if e.identity !in known.byIdentity {
      if desired in known.byPath && known.byPath[desired] != e.identity { return; }
      if PathConflict(host, root + Below(e), Some(root)) { return; }
      change := AddOf(root, e);
    } else {
      var p := known.byIdentity[e.identity];
      var update := PlanUpdate(host, root, known, desired, e, p);
      if update.None? { return; }
      change := update.value;
    }
    after := after.(aliasOwner := after.aliasOwner[e.alias := e.identity]);
  }

  /** `PlanImport`.  None is an error, for a blank root or an entry that is not valid. */
  method PlanImport(host: Host, entries: seq<Entry>, projects: seq<Project>, workspaceRoot: Place)
    returns (plan: Option<seq<Change>>)
    requires AllComplete(projects)
    ensures plan.None? <==> workspaceRoot.None? || !AllOk(entries)
    ensures plan.Some? ==> IsPlan(host, workspaceRoot.value, entries, projects, plan.value)
  {
    if workspaceRoot.None? { return None; }
    var root := workspaceRoot.value;
    var compareRoot := CanonicalPath(host, root);
    var wanted := CollectWanted(entries);
    if wanted.None? { return None; }
    var byIdentity, byPath, aliasOwner := CollectRows(host, wanted.value, projects);
    var seen := CollectSeenPaths(host, wanted.value, projects);
    var known := Known(byIdentity, byPath, aliasOwner, seen);
    assert known == Knowledge(host, entries, projects);
    var changes := PlanEntries(host, root, compareRoot, known, entries);
    return Some(changes);
  }

  /** The loop over the entries. */
  method PlanEntries(host: Host, root: Abs, compareRoot: Abs, known: Known, entries: seq<Entry>)
    returns (changes: seq<Change>)
    requires AllOk(entries) && KnownOk(known) && compareRoot == Canonical(host, root)
    ensures PlanFor(host, root, known, entries, changes)
  {
    var s := Start(known);
    changes := [];
    for i := 0 to |entries|
      invariant s == After(host, root, known, entries[..i]) && PlanFor(host, root, known, entries[..i], changes)
    {
      var change;
      s, change := PlanEntry(host, root, compareRoot, known, s, entries[i]);
      assert entries[..i + 1][..i] == entries[..i] && (changes + [change])[..i] == changes;
      changes := changes + [change];
    }
    assert entries[..|entries|] == entries;
  }
}
