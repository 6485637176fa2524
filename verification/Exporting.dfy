/** Exporting the registry as a workspace manifest, and the round trip over another machine. */
module Exporting {
  import opened Paths
  import opened Hosts
  import opened Projects
  import opened Manifest
  import opened ImportStages
  import opened ApplyImport
  import opened PlanImport
  import opened ConflictFree
  import opened Validation

  // ----- the order of the entries -----

  /** Strings compared character by character. */
  predicate Precedes(a: string, b: string) {
    b != "" && (a == "" || a[0] < b[0] || (a[0] == b[0] && Precedes(a[1..], b[1..])))
  }

  /** They agree up to there, and then the first one ends, or has the smaller character. */
  predicate FirstDifference(a: string, b: string, n: nat) {
    n <= |a| && n < |b| && a[..n] == b[..n] && (n == |a| || a[n] < b[n])
  }

  lemma DifferLater(a: string, b: string, n: nat)
    requires a != "" && b != "" && a[0] == b[0]
    ensures FirstDifference(a, b, n + 1) <==> FirstDifference(a[1..], b[1..], n)
    ensures !FirstDifference(a, b, 0)
  {
    if n < |a| && n < |b| {
      assert a[..n + 1] == [a[0]] + a[1..][..n] && b[..n + 1] == [b[0]] + b[1..][..n];
      assert a[..n + 1][1..] == a[1..][..n] && b[..n + 1][1..] == b[1..][..n];
    }
  }

  /** The first character in which they differ is the smaller one, or there is none and the first string is shorter. */
  lemma {:induction false} PrecedesIsLexical(a: string, b: string)
    ensures Precedes(a, b) <==> exists n: nat :: FirstDifference(a, b, n)
  {
    if a != "" && b != "" && a[0] == b[0] {
      PrecedesIsLexical(a[1..], b[1..]);
      if n: nat :| FirstDifference(a[1..], b[1..], n) { DifferLater(a, b, n); }
      if n: nat :| FirstDifference(a, b, n) {
        DifferLater(a, b, if n == 0 then 0 else n - 1);
        assert FirstDifference(a[1..], b[1..], n - 1);
      }
    } else if Precedes(a, b) {
      assert a[..0] == b[..0];
      assert FirstDifference(a, b, 0);
    }
  }

  lemma {:induction false} PrecedesIsTotal(a: string, b: string)
    ensures Precedes(a, b) || a == b || Precedes(b, a)
  {
    if a != "" && b != "" && a[0] == b[0] {
      PrecedesIsTotal(a[1..], b[1..]);
      if a[1..] == b[1..] { assert a == [a[0]] + a[1..] && b == [b[0]] + b[1..]; }
    }
  }

  lemma {:induction false} PrecedesIsStrict(a: string, b: string)
    requires Precedes(a, b)
    ensures a != b && !Precedes(b, a)
  {
    if a != "" && a[0] == b[0] { PrecedesIsStrict(a[1..], b[1..]); }
  }

  lemma {:induction false} PrecedesIsTransitive(a: string, b: string, c: string)
    requires Precedes(a, b) && Precedes(b, c)
    ensures Precedes(a, c)
  {
    if a != "" && a[0] == b[0] && b[0] == c[0] { PrecedesIsTransitive(a[1..], b[1..], c[1..]); }
  }

  function DesiredText(e: Entry): string
    requires EntryOk(e)
  {
    Text(e.desired.value)
  }

  /** Entries come by desired path, and by identity where that is the same. */
  predicate Before(d: Entry, e: Entry)
    requires EntryOk(d) && EntryOk(e)
  {
    Precedes(DesiredText(d), DesiredText(e)) || (DesiredText(d) == DesiredText(e) && Precedes(d.identity, e.identity))
  }

  /** What the round trip keeps of an entry. */
  datatype Core = Core(identity: string, alias: string, desired: Option<Path>)

  function CoreOf(e: Entry): Core { Core(e.identity, e.alias, e.desired) }

  /** Strictly in order, since no two entries of a manifest want the same path. */
  ghost predicate InOrder(entries: seq<Entry>) {
    && AllOk(entries)
    && forall i, j {:trigger Before(entries[i], entries[j])} :: 0 <= i < j < |entries| ==>
        Before(entries[i], entries[j])
  }

  /** Entries in order come by the characters of their desired paths, and of their identities where those are the
      same. */
  lemma OrderIsLexical(entries: seq<Entry>, i: nat, j: nat)
    requires InOrder(entries) && i < j < |entries|
    ensures EntryOk(entries[i]) && EntryOk(entries[j])
    ensures
      var a, b := Text(entries[i].desired.value), Text(entries[j].desired.value);
      || (exists n: nat :: FirstDifference(a, b, n))
      || (a == b && exists n: nat :: FirstDifference(entries[i].identity, entries[j].identity, n))
  {
    assert Before(entries[i], entries[j]);
    PrecedesIsLexical(Text(entries[i].desired.value), Text(entries[j].desired.value));
    PrecedesIsLexical(entries[i].identity, entries[j].identity);
  }

  lemma BeforeIsStrict(d: Entry, e: Entry)
    requires EntryOk(d) && EntryOk(e) && Before(d, e)
    ensures !Before(e, d) && CoreOf(d) != CoreOf(e)
  {
    if Precedes(DesiredText(d), DesiredText(e)) {
      PrecedesIsStrict(DesiredText(d), DesiredText(e));
    } else {
      PrecedesIsStrict(d.identity, e.identity);
    }
  }

  function Cores(entries: seq<Entry>): (cores: seq<Core>)
    ensures |cores| == |entries| && forall i :: 0 <= i < |entries| ==> cores[i] == CoreOf(entries[i])
  {
    seq(|entries|, i requires 0 <= i < |entries| => CoreOf(entries[i]))
  }

  ghost predicate SameCores(a: seq<Entry>, b: seq<Entry>) {
    && (forall e <- a :: CoreOf(e) in Cores(b))
    && (forall e <- b :: CoreOf(e) in Cores(a))
  }

  lemma BeforeByCore(d: Entry, e: Entry, d': Entry, e': Entry)
    requires EntryOk(d) && EntryOk(e) && EntryOk(d') && EntryOk(e')
    requires CoreOf(d) == CoreOf(d') && CoreOf(e) == CoreOf(e')
    ensures Before(d, e) == Before(d', e')
  {
  }

  /** The first entry of each of two lists in order, with the same entries, is the same. */
  lemma SameFirst(a: seq<Entry>, b: seq<Entry>)
    requires InOrder(a) && InOrder(b) && SameCores(a, b) && a != [] && b != []
    ensures CoreOf(a[0]) == CoreOf(b[0])
  {
    assert a[0] in a && b[0] in b;
    var j :| 0 <= j < |b| && CoreOf(b[j]) == CoreOf(a[0]);
    var i :| 0 <= i < |a| && CoreOf(a[i]) == CoreOf(b[0]);
    if i > 0 && j > 0 {
      assert Before(a[0], a[i]) && Before(b[0], b[j]);
      BeforeByCore(b[0], b[j], a[i], a[0]);
      BeforeIsStrict(a[0], a[i]);
    }
  }

  lemma TailInOrder(a: seq<Entry>)
    requires InOrder(a) && a != []
    ensures InOrder(a[1..]) && forall e <- a[1..] :: CoreOf(e) != CoreOf(a[0])
  {
    var tail := a[1..];
    forall i, j | 0 <= i < j < |tail| ensures Before(tail[i], tail[j]) { assert Before(a[i + 1], a[j + 1]); }
    forall e | e in tail ensures CoreOf(e) != CoreOf(a[0]) {
      var i :| 0 <= i < |tail| && tail[i] == e;
      assert Before(a[0], a[i + 1]);
      BeforeIsStrict(a[0], a[i + 1]);
    }
  }

  lemma TailHas(a: seq<Entry>, b: seq<Entry>, e: Entry)
    requires a != [] && b != [] && (forall x <- a :: CoreOf(x) in Cores(b)) && CoreOf(a[0]) == CoreOf(b[0])
    requires e in a[1..] && CoreOf(e) != CoreOf(a[0])
    ensures CoreOf(e) in Cores(b[1..])
  {
  }

  /** Two lists in order, with the same entries, are the same list. */
  lemma {:induction false} OrderIsUnique(a: seq<Entry>, b: seq<Entry>)
    requires InOrder(a) && InOrder(b) && SameCores(a, b)
    ensures Cores(a) == Cores(b)
  {
    if a != [] { assert a[0] in a; }
    if b != [] { assert b[0] in b; }
    if a != [] && b != [] {
      SameFirst(a, b);
      TailInOrder(a);
      TailInOrder(b);
      forall e | e in a[1..] ensures CoreOf(e) in Cores(b[1..]) { TailHas(a, b, e); }
      forall e | e in b[1..] ensures CoreOf(e) in Cores(a[1..]) { TailHas(b, a, e); }
      OrderIsUnique(a[1..], b[1..]);
      assert Cores(a) == [CoreOf(a[0])] + Cores(a[1..]) && Cores(b) == [CoreOf(b[0])] + Cores(b[1..]);
    }
  }

  // ----- one row -----

  /** `relativeDesiredPath`: where a path lies below the root, once both are resolved. */
  function RelativeDesired(host: Host, root: Abs, path: Abs): Option<Path> {
    var rel := Paths.Rel(Path(true, Canonical(host, root)), Path(true, Canonical(host, path)));
    if rel.None? || (rel.value != [] && rel.value[0] == "..") then None else Some(Path(false, rel.value))
  }

  lemma RelativeIsRest(host: Host, root: Abs, path: Abs)
    ensures
      var r, p := Canonical(host, root), Canonical(host, path);
      RelativeDesired(host, root, path) == if r <= p then Some(Path(false, p[|r|..])) else None
  {
    var r, p := Canonical(host, root), Canonical(host, path);
    InsideIsPrefix(Path(true, r), Path(true, p));
    if r < p { RelOfExtension(Path(true, r), Path(true, p)); }
    if r == p { assert p[|r|..] == []; }
  }

  /** The entry of a row; `hint` is what is kept of a clone URL. */
  function EntryOf(host: Host, root: Abs, hint: string -> string, p: Project): Entry
    requires Complete(p)
  {
    Entry(VERSION, p.remote, p.alias, RelativeDesired(host, root, CanonicalOf(p)), hint(p.cloneURL))
  }

  ghost predicate Exports(host: Host, root: Abs, hint: string -> string, projects: seq<Project>, entries: seq<Entry>)
    requires AllComplete(projects)
  {
    && |entries| == |projects|
    && (forall p <- projects :: EntryOf(host, root, hint, p) in entries)
    && (forall e <- entries :: exists p <- projects :: e == EntryOf(host, root, hint, p))
  }

  function Inserted(e: Entry, entries: seq<Entry>): (r: seq<Entry>)
    requires EntryOk(e) && AllOk(entries)
    ensures |r| == |entries| + 1 && e in r && (forall x <- entries :: x in r) && forall x <- r :: x == e || x in entries
  {
    if entries == [] || Before(e, entries[0]) then [e] + entries else [entries[0]] + Inserted(e, entries[1..])
  }

  lemma {:induction false} InsertedInOrder(e: Entry, entries: seq<Entry>)
    requires EntryOk(e) && InOrder(entries) && forall x <- entries :: x.identity != e.identity
    ensures InOrder(Inserted(e, entries))
  {
    var r := Inserted(e, entries);
    if entries == [] {
    } else if Before(e, entries[0]) {
      forall j | 0 < j < |r| ensures Before(r[0], r[j]) {
        if j > 1 { assert Before(entries[0], entries[j - 1]); BeforeIsTransitive(e, entries[0], entries[j - 1]); }
      }
      forall i, j | 0 < i < j < |r| ensures Before(r[i], r[j]) { assert Before(entries[i - 1], entries[j - 1]); }
    } else {
      TailInOrder(entries);
      InsertedInOrder(e, entries[1..]);
      var rest := Inserted(e, entries[1..]);
      forall j | 0 < j < |r| ensures Before(r[0], r[j]) {
        assert r[j] == rest[j - 1];
        if r[j] == e {
          assert entries[0] in entries;
          BeforeIsTotal(e, entries[0]);
        } else {
          assert rest[j - 1] in entries[1..];
          var k :| 0 <= k < |entries| - 1 && entries[1..][k] == r[j];
          assert Before(entries[0], entries[k + 1]);
        }
      }
      forall i, j | 0 < i < j < |r| ensures Before(r[i], r[j]) { assert Before(rest[i - 1], rest[j - 1]); }
    }
  }

  lemma BeforeIsTotal(d: Entry, e: Entry)
    requires EntryOk(d) && EntryOk(e) && d.identity != e.identity
    ensures Before(d, e) || Before(e, d)
  {
    PrecedesIsTotal(DesiredText(d), DesiredText(e));
    PrecedesIsTotal(d.identity, e.identity);
  }

  lemma BeforeIsTransitive(d: Entry, e: Entry, f: Entry)
    requires EntryOk(d) && EntryOk(e) && EntryOk(f) && Before(d, e) && Before(e, f)
    ensures Before(d, f)
  {
    if Precedes(DesiredText(d), DesiredText(e)) && Precedes(DesiredText(e), DesiredText(f)) {
      PrecedesIsTransitive(DesiredText(d), DesiredText(e), DesiredText(f));
    } else if DesiredText(d) == DesiredText(f) && DesiredText(d) == DesiredText(e) {
      PrecedesIsTransitive(d.identity, e.identity, f.identity);
    }
  }

  /** `ExportProjects`: an entry for each row, in order; it fails if a row lies outside the workspace. */
  method ExportProjects(host: Host, projects: seq<Project>, workspaceRoot: Place, hint: string -> string)
    returns (entries: Option<seq<Entry>>)
    requires AllComplete(projects) && AllApart(projects)
    ensures workspaceRoot.None? ==> entries.None?
    ensures workspaceRoot.Some? ==>
        (entries.Some? <==> forall p <- projects :: EntryOk(EntryOf(host, workspaceRoot.value, hint, p)))
    ensures entries.Some? ==>
        InOrder(entries.value) && Exports(host, workspaceRoot.value, hint, projects, entries.value)
  {
    if workspaceRoot.None? { return None; }
    var root := workspaceRoot.value;
    var sorted := [];
    for i := 0 to |projects|
      invariant AllComplete(projects[..i]) && InOrder(sorted) && Exports(host, root, hint, projects[..i], sorted)
      invariant forall p <- projects[..i] :: EntryOk(EntryOf(host, root, hint, p))
    {
      var p := projects[i];
      assert p in projects && projects[..i + 1] == projects[..i] + [p];
      var e := EntryOf(host, root, hint, p);
      if !EntryOk(e) { return None; }
      forall x | x in sorted ensures x.identity != e.identity {
        var q :| q in projects[..i] && x == EntryOf(host, root, hint, q);
        var k :| 0 <= k < i && projects[k] == q;
        assert Apart(projects[k], projects[i]);
      }
      InsertedInOrder(e, sorted);
      sorted := Inserted(e, sorted);
    }
    assert projects[..|projects|] == projects;
    return Some(sorted);
  }

  // ----- the round trip -----

  /** What is kept of a clone URL is kept again. */
  ghost predicate KeepsHints(hint: string -> string) { forall url :: hint(url) != "" ==> hint(hint(url)) == hint(url) }

  /** Paths below the root lead nowhere else. */
  ghost predicate NoLinksBelow(host: Host, root: Abs) {
    forall rel: Abs :: Canonical(host, root + rel) == Canonical(host, root) + rel
  }

  lemma {:induction false} AllAdds(changes: seq<Change>)
    requires forall c <- changes :: c.action == Add
    ensures OfAction(changes, Add) == changes && OfAction(changes, Update) == []
  {
    if changes != [] {
      var n := |changes| - 1;
      AllAdds(changes[..n]);
      assert changes == changes[..n] + [changes[n]];
    }
  }

  /** The table after a validated manifest was imported on an empty machine: a row for each entry, and no other. */
  lemma ImportedRows(host: Host, root: Abs, entries: seq<Entry>, changes: seq<Change>, added: seq<Project>, after: Rows)
    requires Lawful(host) && EmptyRoot(host, root) && ManifestOk(entries) && IsPlan(host, root, entries, [], changes)
    requires Applied(after, map[], changes, added)
    ensures |added| == |entries|
    ensures forall k :: 0 <= k < |added| ==> added[k] == FromChange(AddOf(root, entries[k])).(id := added[k].id)
    ensures forall k :: 0 <= k < |added| ==> added[k].id in after && after[added[k].id] == added[k]
    ensures forall id <- after :: after[id] in added
  {
    ValidPlansToAdds(host, root, entries, changes);
    AllAdds(changes);
    assert Overlay(map[], []) == map[];
    forall k | 0 <= k < |added| ensures added[k].id in after && after[added[k].id] == added[k] {
      AddedIsThere(map[], changes, added, k);
    }
    forall id | id in after ensures after[id] in added { var k := AddedIndex(map[], added, id); }
  }

  /** The entry of the row an entry was added as. */
  lemma EntryComesBack(host: Host, root: Abs, hint: string -> string, e: Entry, p: Project)
    requires EntryOk(e) && NoLinksBelow(host, root) && p.id > 0 && p == FromChange(AddOf(root, e)).(id := p.id)
    ensures Complete(p) && EntryOk(EntryOf(host, root, hint, p)) && CoreOf(EntryOf(host, root, hint, p)) == CoreOf(e)
    ensures e.hint != "" ==> EntryOf(host, root, hint, p).hint == hint(e.hint)
  {
    RelativeIsRest(host, root, root + Below(e));
    assert Canonical(host, root + Below(e)) == Canonical(host, root) + Below(e);
  }

  /** The row an entry was added as is exported as that entry. */
  ghost predicate Back(host: Host, root: Abs, hint: string -> string, e: Entry, p: Project) {
    && Complete(p) && EntryOk(EntryOf(host, root, hint, p)) && CoreOf(EntryOf(host, root, hint, p)) == CoreOf(e)
    && (e.hint != "" ==> EntryOf(host, root, hint, p).hint == hint(e.hint))
  }

  lemma AddedComeBack(host: Host, root: Abs, hint: string -> string, entries: seq<Entry>, added: seq<Project>)
    requires AllOk(entries) && NoLinksBelow(host, root) && |added| == |entries|
    requires forall k :: 0 <= k < |added| ==> added[k] == FromChange(AddOf(root, entries[k])).(id := added[k].id)
    requires forall k :: 0 <= k < |added| ==> added[k].id > 0
    ensures forall k :: 0 <= k < |added| ==> Back(host, root, hint, entries[k], added[k])
  {
    forall k | 0 <= k < |added| ensures Back(host, root, hint, entries[k], added[k]) {
      EntryComesBack(host, root, hint, entries[k], added[k]);
    }
  }

  lemma BackHasSameCores(host: Host, root: Abs, hint: string -> string, first: seq<Entry>, added: seq<Project>,
                         listed: seq<Project>, second: seq<Entry>)
    requires AllComplete(listed) && |added| == |first| && Exports(host, root, hint, listed, second)
    requires (forall p <- listed :: p in added) && (forall p <- added :: p in listed)
    requires forall k :: 0 <= k < |added| ==> Back(host, root, hint, first[k], added[k])
    ensures SameCores(first, second)
  {
  }

  lemma SameCoreSameIndex(entries: seq<Entry>, i: nat, k: nat)
    requires InOrder(entries) && i < |entries| && k < |entries| && CoreOf(entries[i]) == CoreOf(entries[k])
    ensures i == k
  {
    if i < k { assert Before(entries[i], entries[k]); BeforeIsStrict(entries[i], entries[k]); }
    if k < i { assert Before(entries[k], entries[i]); BeforeIsStrict(entries[k], entries[i]); }
  }

  lemma HintsComeBack(host: Host, root: Abs, hint: string -> string, first: seq<Entry>, added: seq<Project>,
                      listed: seq<Project>, second: seq<Entry>, i: nat)
    requires AllComplete(listed) && |added| == |first| && Exports(host, root, hint, listed, second)
    requires InOrder(first) && Cores(first) == Cores(second) && forall p <- listed :: p in added
    requires forall k :: 0 <= k < |added| ==> Back(host, root, hint, first[k], added[k])
    requires i < |first| && first[i].hint != ""
    ensures |second| == |first| && second[i].hint == hint(first[i].hint)
  {
    assert Cores(second)[i] == CoreOf(second[i]) && second[i] in second;
    var p :| p in listed && second[i] == EntryOf(host, root, hint, p);
    var k :| 0 <= k < |added| && added[k] == p;
    SameCoreSameIndex(first, i, k);
  }

  /** Importing a manifest on an empty machine and exporting again, whatever was hydrated there meanwhile: every row can
      be exported, and the result has the same entries in the same order. */
  lemma ImportExport(host: Host, later: Host, root: Abs, hint: string -> string, first: seq<Entry>,
      changes: seq<Change>, added: seq<Project>, after: Rows, listed: seq<Project>, second: seq<Entry>)
    requires ManifestOk(first) && InOrder(first)
    requires Lawful(host) && EmptyRoot(host, root) && IsPlan(host, root, first, [], changes)
    requires Applied(after, map[], changes, added) && Lists(listed, after) && AllComplete(listed)
    requires NoLinksBelow(later, root) && InOrder(second) && Exports(later, root, hint, listed, second)
    ensures forall p <- listed :: EntryOk(EntryOf(later, root, hint, p))
    ensures Cores(second) == Cores(first)
    ensures forall i :: 0 <= i < |first| && first[i].hint != "" ==> second[i].hint == hint(first[i].hint)
  {
    ImportedRows(host, root, first, changes, added, after);
    ListedAreAdded(after, added, listed);
    AddedComeBack(later, root, hint, first, added);
    BackHasSameCores(later, root, hint, first, added, listed, second);
    OrderIsUnique(first, second);
    forall i | 0 <= i < |first| && first[i].hint != ""
      ensures |second| == |first| && second[i].hint == hint(first[i].hint)
    {
      HintsComeBack(later, root, hint, first, added, listed, second, i);
    }
  }

  lemma ListedAreAdded(after: Rows, added: seq<Project>, listed: seq<Project>)
    requires Lists(listed, after) && forall id <- after :: after[id] in added
    requires forall k :: 0 <= k < |added| ==> added[k].id in after && after[added[k].id] == added[k]
    ensures (forall p <- listed :: p in added) && (forall p <- added :: p in listed)
  {
  }

  /** Export, import under another root on another machine, export: the same manifest, with the clone hints the first
      export kept. */
  lemma RoundTrip(here: Host, home: Abs, projects: seq<Project>, host: Host, later: Host, root: Abs,
                  hint: string -> string, first: seq<Entry>, changes: seq<Change>, added: seq<Project>, after: Rows,
                  listed: seq<Project>, second: seq<Entry>)
    requires AllComplete(projects) && Exports(here, home, hint, projects, first) && KeepsHints(hint)
    requires ManifestOk(first) && InOrder(first)
    requires Lawful(host) && EmptyRoot(host, root) && IsPlan(host, root, first, [], changes)
    requires Applied(after, map[], changes, added) && Lists(listed, after) && AllComplete(listed)
    requires NoLinksBelow(later, root) && InOrder(second) && Exports(later, root, hint, listed, second)
    ensures Cores(second) == Cores(first)
    ensures forall i :: 0 <= i < |first| && first[i].hint != "" ==> second[i].hint == first[i].hint
  {
    ImportExport(host, later, root, hint, first, changes, added, after, listed, second);
    HintsStay(here, home, hint, projects, first);
  }

  lemma HintsStay(host: Host, root: Abs, hint: string -> string, projects: seq<Project>, entries: seq<Entry>)
    requires AllComplete(projects) && Exports(host, root, hint, projects, entries) && KeepsHints(hint)
    ensures forall i :: 0 <= i < |entries| && entries[i].hint != "" ==> hint(entries[i].hint) == entries[i].hint
  {
    forall i | 0 <= i < |entries| && entries[i].hint != "" ensures hint(entries[i].hint) == entries[i].hint {
      assert entries[i] in entries;
      var p :| p in projects && entries[i] == EntryOf(host, root, hint, p);
    }
  }
}
