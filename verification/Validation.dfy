/** Validating a workspace manifest, and planning it on an empty machine. */
module Validation {
  import opened Paths
  import opened Hosts
  import opened Projects
  import opened Manifest
  import opened PlanImport
  import opened ConflictFree
  import opened DryRunRefines

  /** Entries of different projects under different aliases, at places that do not contain one another. */
  predicate Separate(d: Entry, e: Entry)
    requires EntryOk(d) && EntryOk(e)
  {
    d.identity != e.identity && d.alias != e.alias && !Overlaps(Below(d), Below(e))
  }

  ghost predicate ManifestOk(entries: seq<Entry>) {
    && AllOk(entries)
    && forall i, j {:trigger Separate(entries[i], entries[j])} :: 0 <= i < j < |entries| ==>
         Separate(entries[i], entries[j])
  }

  /** `desiredPathNests` on cleaned relative paths. */
  predicate DesiredNests(parent: Abs, child: Abs) { IsAncestor(Path(false, parent), Path(false, child)) }

  lemma NestsIsOverlap(a: Abs, b: Abs)
    ensures a == b || DesiredNests(a, b) || DesiredNests(b, a) <==> Overlaps(a, b)
  {
  }

  /** `ValidateWorkspace`: three maps of what was seen, and a loop over the paths seen for those that nest. */
  method ValidateWorkspace(entries: seq<Entry>) returns (valid: bool)
    ensures valid <==> ManifestOk(entries)
  {
    var aliases: map<string, string> := map[];
    var identities: map<string, string> := map[];
    var paths: map<Abs, string> := map[];
    for i := 0 to |entries|
      invariant ValidUpTo(entries, i, aliases.Keys, identities.Keys, paths.Keys)
    {
      var e := entries[i];
      var ok := CheckEntry(entries, i, aliases, identities, paths);
      if !ok { return false; }
      aliases, identities, paths := aliases[e.alias := e.identity], identities[e.identity := e.alias],
          paths[Below(e) := e.identity];
    }
    assert entries[..|entries|] == entries;
    return true;
  }

  /** One turn of the loop. */
  method CheckEntry(entries: seq<Entry>, n: nat, aliases: map<string, string>, identities: map<string, string>,
                    paths: map<Abs, string>) returns (ok: bool)
    requires n < |entries| && ValidUpTo(entries, n, aliases.Keys, identities.Keys, paths.Keys)
    ensures !ok ==> !ManifestOk(entries)
    ensures ok ==> EntryOk(entries[n]) && ValidUpTo(entries, n + 1, aliases.Keys + {entries[n].alias},
        identities.Keys + {entries[n].identity}, paths.Keys + {Below(entries[n])})
  {
    var e := entries[n];
    if !EntryOk(e) {
      assert e in entries;
      return false;
    }
    if e.alias in aliases || e.identity in identities || Below(e) in paths {
      SeenIsTaken(entries, n, aliases.Keys, identities.Keys, paths.Keys);
      return false;
    }
    var nests := NestsWithSeen(paths, Below(e));
    if nests {
      NestedIsTaken(entries, n, aliases.Keys, identities.Keys, paths.Keys);
      return false;
    }
    IsSeparate(entries, n, aliases.Keys, identities.Keys, paths.Keys);
    SeesOneMore(entries, n, aliases.Keys, identities.Keys, paths.Keys);
    OneMoreSeparate(entries, n);
    return true;
  }

  ghost predicate ValidUpTo(entries: seq<Entry>, n: nat, aliases: set<string>, identities: set<string>,
      paths: set<Abs>) {
    n <= |entries| && ManifestOk(entries[..n]) && SeenExactly(entries, n, aliases, identities, paths)
  }

  lemma OneMoreSeparate(entries: seq<Entry>, n: nat)
    requires n < |entries| && ManifestOk(entries[..n])
    requires forall i :: 0 <= i <= n ==> EntryOk(entries[i])
    requires forall i :: 0 <= i < n ==> Separate(entries[i], entries[n])
    ensures ManifestOk(entries[..n + 1])
  {
    var earlier, now := entries[..n], entries[..n + 1];
    forall i, j | 0 <= i < j < n + 1 ensures Separate(now[i], now[j]) {
      if j < n { assert Separate(earlier[i], earlier[j]); }
    }
  }

  /** The loop over the paths seen: whether one of them contains the path, or the path one of them. */
  method NestsWithSeen(paths: map<Abs, string>, path: Abs) returns (nests: bool)
    ensures nests <==> exists other <- paths :: DesiredNests(other, path) || DesiredNests(path, other)
  {
    var left := paths.Keys;
    while left != {}
      invariant left <= paths.Keys
      invariant forall other :: other in paths && other !in left ==>
          !DesiredNests(other, path) && !DesiredNests(path, other)
    {
      var other :| other in left;
      left := left - {other};
      if DesiredNests(other, path) || DesiredNests(path, other) { return true; }
    }
    return false;
  }

  ghost predicate SeenExactly(entries: seq<Entry>, n: nat, aliases: set<string>, identities: set<string>,
      paths: set<Abs>)
    requires n <= |entries| && AllOk(entries[..n])
  {
    && aliases == (set e <- entries[..n] :: e.alias)
    && identities == (set e <- entries[..n] :: e.identity)
    && paths == (set e <- entries[..n] :: Below(e))
  }

  lemma SeesOneMore(entries: seq<Entry>, n: nat, aliases: set<string>, identities: set<string>, paths: set<Abs>)
    requires n < |entries| && AllOk(entries[..n]) && EntryOk(entries[n])
    requires SeenExactly(entries, n, aliases, identities, paths)
    ensures AllOk(entries[..n + 1])
    ensures SeenExactly(entries, n + 1, aliases + {entries[n].alias}, identities + {entries[n].identity},
                        paths + {Below(entries[n])})
  {
  }

  lemma SeenIsTaken(entries: seq<Entry>, n: nat, aliases: set<string>, identities: set<string>, paths: set<Abs>)
    requires n < |entries| && AllOk(entries[..n]) && EntryOk(entries[n])
    requires SeenExactly(entries, n, aliases, identities, paths)
    requires entries[n].alias in aliases || entries[n].identity in identities || Below(entries[n]) in paths
    ensures !ManifestOk(entries)
  {
    var i :| 0 <= i < n && (entries[i].alias == entries[n].alias || entries[i].identity == entries[n].identity
                            || Below(entries[i]) == Below(entries[n]));
    if AllOk(entries) {
      NestsIsOverlap(Below(entries[i]), Below(entries[n]));
      assert !Separate(entries[i], entries[n]);
    }
  }

  lemma NestedIsTaken(entries: seq<Entry>, n: nat, aliases: set<string>, identities: set<string>, paths: set<Abs>)
    requires n < |entries| && AllOk(entries[..n]) && EntryOk(entries[n])
    requires SeenExactly(entries, n, aliases, identities, paths)
    requires exists other <- paths :: DesiredNests(other, Below(entries[n])) || DesiredNests(Below(entries[n]), other)
    ensures !ManifestOk(entries)
  {
    var other :| other in paths && (DesiredNests(other, Below(entries[n])) || DesiredNests(Below(entries[n]), other));
    var e :| e in entries[..n] && Below(e) == other;
    var i :| 0 <= i < n && entries[i] == e;
    if AllOk(entries) {
      NestsIsOverlap(Below(entries[i]), Below(entries[n]));
      assert !Separate(entries[i], entries[n]);
    }
  }

  lemma IsSeparate(entries: seq<Entry>, n: nat, aliases: set<string>, identities: set<string>, paths: set<Abs>)
    requires n < |entries| && AllOk(entries[..n]) && EntryOk(entries[n])
    requires SeenExactly(entries, n, aliases, identities, paths)
    requires entries[n].alias !in aliases && entries[n].identity !in identities && Below(entries[n]) !in paths
    requires forall other <- paths :: !DesiredNests(other, Below(entries[n])) && !DesiredNests(Below(entries[n]), other)
    ensures forall i :: 0 <= i < n ==> EntryOk(entries[i]) && Separate(entries[i], entries[n])
  {
    forall i | 0 <= i < n ensures EntryOk(entries[i]) && Separate(entries[i], entries[n]) {
      assert entries[i] in entries[..n];
      NestsIsOverlap(Below(entries[i]), Below(entries[n]));
    }
  }

  // ----- a validated manifest on an empty machine -----

  /** The workspace root is absent, or an empty directory. */
  ghost predicate EmptyRoot(host: Host, root: Abs) {
    && (forall s: Abs :: s != [] ==>
          host.lstat(root + s) == Missing && host.stat(root + s) == NotThere && !host.resolve(root + s).At?)
    && (host.stat(root) == Directory(true, true) ||
        (host.stat(root) == NotThere && host.lstat(root) == Missing && !host.resolve(root).At? &&
         !ParentConflict(host, root)))
  }

  lemma {:induction false} NothingBelow(host: Host, root: Abs, rel: Abs, n: nat)
    requires EmptyRoot(host, root) && n <= |rel|
    ensures Nearest(host, root + rel, |root| + n) == Nearest(host, root, |root|)
  {
    if n > 0 {
      assert (root + rel)[..|root| + n] == root + rel[..n];
      NothingBelow(host, root, rel, n - 1);
    } else {
      SameNearest(host, root, rel, |root|);
    }
  }

  lemma {:induction false} SameNearest(host: Host, root: Abs, rel: Abs, n: nat)
    requires n <= |root|
    ensures Nearest(host, root + rel, n) == Nearest(host, root, n)
  {
    assert (root + rel)[..n] == root[..n];
    if n > 0 { SameNearest(host, root, rel, n - 1); }
  }

  /** Below an empty root, a path leads where the root leads. */
  lemma CanonicalBelowEmpty(host: Host, root: Abs, rel: Abs)
    requires EmptyRoot(host, root)
    ensures Canonical(host, root + rel) == Canonical(host, root) + rel
  {
    NothingBelow(host, root, rel, |rel|);
    match Nearest(host, root, |root|) {
      case None =>
      case Some(n) =>
        assert (root + rel)[..n] == root[..n] && (root + rel)[n..] == root[n..] + rel;
    }
  }

  lemma DesiredInEmpty(host: Host, root: Abs, e: Entry)
    requires Lawful(host) && EmptyRoot(host, root) && EntryOk(e)
    ensures DesiredPath(host, root, e) == Canonical(host, root) + Below(e)
  {
    CanonicalBelow(host, root, Below(e));
    CanonicalBelowEmpty(host, root, Below(e));
  }

  lemma {:induction false} ParentsFree(host: Host, root: Abs, rel: Abs)
    requires EmptyRoot(host, root) && rel != []
    ensures !ParentConflict(host, root + rel)
    decreases |rel|
  {
    assert Dir(root + rel) == root + rel[..|rel| - 1];
    if |rel| > 1 { ParentsFree(host, root, rel[..|rel| - 1]); } else { assert root + [] == root; }
  }

  /** Nothing is in the way of any project, not even of one that is to take the place of the root. */
  lemma NothingInTheWay(host: Host, root: Abs, rel: Abs)
    requires EmptyRoot(host, root)
    ensures !PathConflict(host, root + rel, Some(root))
  {
    CanonicalBelowEmpty(host, root, rel);
    if rel == [] { assert root + rel == root; } else { ParentsFree(host, root, rel); }
  }

  lemma InsideRoot(host: Host, root: Abs, e: Entry)
    requires Lawful(host) && EmptyRoot(host, root) && EntryOk(e)
    ensures PathWithinRoot(host, Canonical(host, root), DesiredPath(host, root, e))
  {
    DesiredInEmpty(host, root, e);
    CanonicalTwice(host, root);
    CanonicalTwice(host, root + Below(e));
    CanonicalBelow(host, root, Below(e));
    var r, p := Canonical(host, root), DesiredPath(host, root, e);
    WithinIsProperPrefix(p, r);
  }

  const NOTHING_KNOWN := Known(map[], map[], map[], map[])

  lemma CommonStart(r: seq<string>, x: seq<string>, y: seq<string>)
    ensures r + x <= r + y <==> x <= y
  {
    if r + x <= r + y { assert x == (r + x)[|r|..] && y == (r + y)[|r|..]; }
  }

  lemma PlacesApart(host: Host, root: Abs, d: Entry, e: Entry)
    requires Lawful(host) && EmptyRoot(host, root) && EntryOk(d) && EntryOk(e) && Separate(d, e)
    ensures
      var a, b := DesiredPath(host, root, d), DesiredPath(host, root, e);
      a != b && !Within(a, b) && !Within(b, a)
  {
    DesiredInEmpty(host, root, d);
    DesiredInEmpty(host, root, e);
    WithinIsProperPrefix(DesiredPath(host, root, d), DesiredPath(host, root, e));
    WithinIsProperPrefix(DesiredPath(host, root, e), DesiredPath(host, root, d));
    OverlapsIsComparable(Below(d), Below(e));
    CommonStart(Canonical(host, root), Below(d), Below(e));
    CommonStart(Canonical(host, root), Below(e), Below(d));
  }

  lemma SeparateAt(entries: seq<Entry>, i: nat, j: nat)
    requires ManifestOk(entries) && i < j < |entries|
    ensures Separate(entries[i], entries[j])
  {
  }

  lemma ValidIsPlaced(host: Host, root: Abs, entries: seq<Entry>, n: nat)
    requires Lawful(host) && EmptyRoot(host, root) && ManifestOk(entries) && n < |entries|
    ensures Placed(host, root, After(host, root, NOTHING_KNOWN, entries[..n]), entries[n])
  {
    var s, e := After(host, root, NOTHING_KNOWN, entries[..n]), entries[n];
    if e.identity in s.identities {
      var i := IdentityFrom(host, root, NOTHING_KNOWN, entries[..n], e.identity);
      SeparateAt(entries, i, n);
    }
    if e.alias in s.aliasOwner {
      var i := AliasFrom(host, root, NOTHING_KNOWN, entries[..n], e.alias);
      SeparateAt(entries, i, n);
    }
    forall path | path in s.seenPaths
      ensures path != DesiredPath(host, root, e) && !Within(DesiredPath(host, root, e), path)
      ensures !Within(path, DesiredPath(host, root, e))
    {
      var i := PathFrom(host, root, NOTHING_KNOWN, entries[..n], path);
      SeparateAt(entries, i, n);
      PlacesApart(host, root, entries[i], e);
    }
    InsideRoot(host, root, e);
  }

  lemma ValidIsClear(host: Host, root: Abs, entries: seq<Entry>, n: nat)
    requires Lawful(host) && EmptyRoot(host, root) && ManifestOk(entries) && n < |entries|
    ensures ClearEntry(host, root, NOTHING_KNOWN, entries, n)
  {
    ValidIsPlaced(host, root, entries, n);
    NothingInTheWay(host, root, Below(entries[n]));
  }

  /** Validator and planner agree: on an empty registry and an absent or empty workspace root, every manifest the
      validator accepts is planned without conflicts, as adds only. */
  lemma ValidPlansToAdds(host: Host, root: Abs, entries: seq<Entry>, changes: seq<Change>)
    requires Lawful(host) && EmptyRoot(host, root) && ManifestOk(entries) && IsPlan(host, root, entries, [], changes)
    ensures |changes| == |entries| && forall i :: 0 <= i < |entries| ==> changes[i] == AddOf(root, entries[i])
  {
    assert Knowledge(host, entries, []) == NOTHING_KNOWN;
    forall i | 0 <= i < |entries| ensures ClearEntry(host, root, NOTHING_KNOWN, entries, i) {
      ValidIsClear(host, root, entries, i);
    }
    ClearIsConflictFree(host, root, NOTHING_KNOWN, entries, changes);
  }
}
