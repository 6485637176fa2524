/** What the planners see of the file system: what is at a path, and where a path leads once symbolic links are
    followed. */
module Hosts {
  import opened Paths

  /** `os.Lstat` */
  datatype Seen = Missing | Present | Unknown

  /** `os.Stat`, and `os.ReadDir` of a directory. */
  datatype Followed = NotThere | Directory(readable: bool, empty: bool) | NotDirectory | StatError

  /** `filepath.EvalSymlinks` */
  datatype Resolution = At(path: Abs) | Absent | Broken

  datatype Host = Host(lstat: Abs -> Seen, stat: Abs -> Followed, resolve: Abs -> Resolution)

  // ----- resolving a path that may not exist -----

  /** The length of the longest ancestor of length n or less that resolves. */
  function Nearest(host: Host, path: Abs, n: nat): (r: Option<nat>)
    requires n <= |path|
    ensures r.Some? ==> r.value <= n && host.resolve(path[..r.value]).At?
    ensures r.Some? ==> forall m :: r.value < m <= n ==> !host.resolve(path[..m]).At?
    ensures r.None? ==> forall m :: 0 <= m <= n ==> !host.resolve(path[..m]).At?
  {
    if host.resolve(path[..n]).At? then Some(n) else if n == 0 then None else Nearest(host, path, n - 1)
  }

  /** Where the longest ancestor that resolves leads, with the rest of the path appended; the path itself if not even
      the root resolves. */
  function Canonical(host: Host, path: Abs): Abs {
    match Nearest(host, path, |path|)
    case None => path
    case Some(n) => host.resolve(path[..n]).path + path[n..]
  }

  function Reversed(s: seq<string>): (r: seq<string>)
    ensures |r| == |s| && forall i :: 0 <= i < |s| ==> r[i] == s[|s| - 1 - i]
  {
    if s == [] then [] else Reversed(s[1..]) + [s[0]]
  }

  lemma NearestFrom(host: Host, path: Abs, n: nat)
    requires n <= |path| && host.resolve(path[..n]).At?
    requires forall m :: n < m <= |path| ==> !host.resolve(path[..m]).At?
    ensures Nearest(host, path, |path|) == Some(n)
  {
  }

  /** `canonicalPathForComparison`: the missing names are collected from the last to the first, and appended in
      reverse. */
  method CanonicalPath(host: Host, path: Abs) returns (canonical: Abs)
    ensures canonical == Canonical(host, path)
  {
    var missing := [];
    var current := path;
    assert path[..|path|] == path && path[|path|..] == [];
    while true
      invariant |current| <= |path| && current == path[..|current|] && missing == Reversed(path[|current|..])
      invariant forall m :: |current| < m <= |path| ==> !host.resolve(path[..m]).At?
      decreases |current|
    {
      var resolution := host.resolve(current);
      if resolution.At? {
        NearestFrom(host, path, |current|);
        canonical := RejoinedInReverse(host, path, resolution.path, |current|, missing);
        return;
      }
      var parent := Dir(current);
      if parent == current { return path; }
      assert path[|parent|..] == [path[|parent|]] + path[|current|..];
      missing := missing + [current[|current| - 1]];
      current := parent;
    }
  }

  method RejoinedInReverse(host: Host, path: Abs, start: Abs, ghost n: nat, missing: seq<string>)
    returns (joined: Abs)
    requires n <= |path| && missing == Reversed(path[n..])
    ensures joined == start + path[n..]
  {
    joined := start;
    var i := |missing|;
    while i > 0
      invariant 0 <= i <= |missing| && joined == start + path[n..|path| - i]
    {
      i := i - 1;
      assert missing[i] == path[|path| - i - 1] && missing[i] in path;
      JoinPlain(joined, [missing[i]]);
      joined := JoinRel(joined, [missing[i]]);
      assert path[n..|path| - i] == path[n..|path| - i - 1] + [missing[i]];
    }
    assert path[n..|path|] == path[n..];
  }

  /** `realPathForPossiblyMissing`: the missing names are put in front of each other.  It fails on an error other than
      a missing path, and if nothing resolves. */
  method RealPath(host: Host, path: Abs) returns (found: Option<Abs>)
    ensures found == Real(host, path)
  {
    assert path[..|path|] == path;
    match host.resolve(path) {
      case At(p) =>
        NearestFrom(host, path, |path|);
        assert p + path[|path|..] == p;
        return Some(p);
      case Broken => return None;
      case Absent =>
    }
    var ancestor := Dir(path);
    if path == [] { return None; }
    var suffix := [path[|path| - 1]];
    while true
      invariant |ancestor| < |path| && ancestor == path[..|ancestor|] && suffix == path[|ancestor|..]
      invariant forall m :: |ancestor| < m <= |path| ==> host.resolve(path[..m]).Absent?
      decreases |ancestor|
    {
      match host.resolve(ancestor) {
        case At(p) =>
          NearestFrom(host, path, |ancestor|);
          assert AllPlain(suffix);
          JoinPlain(p, suffix);
          return Some(JoinRel(p, suffix));
        case Broken => return None;
        case Absent =>
      }
      var next := Dir(ancestor);
      if next == ancestor { return None; }
      suffix := [ancestor[|ancestor| - 1]] + suffix;
      ancestor := next;
    }
  }

  /** Both loops find the same place, unless the second one gives up: it does exactly if nothing resolves, or
      something between the path and the ancestor that does could not be checked. */
  ghost function Real(host: Host, path: Abs): Option<Abs> {
    var nearest := Nearest(host, path, |path|);
    if nearest.Some? && (forall m :: nearest.value < m <= |path| ==> host.resolve(path[..m]).Absent?) then
      Some(Canonical(host, path))
    else None
  }

  /** With a root that resolves, and no error but a missing path, both loops always return the same path. */
  lemma RealIsCanonical(host: Host, path: Abs)
    requires host.resolve([]).At? && forall m :: 0 <= m <= |path| ==> !host.resolve(path[..m]).Broken?
    ensures Real(host, path) == Some(Canonical(host, path))
  {
    assert path[..0] == [];
  }

  // ----- resolution that follows links consistently -----

  predicate Follows(host: Host, p: Abs, s: Abs) {
    && (host.resolve(p).At? ==> host.resolve(host.resolve(p).path + s) == host.resolve(p + s))
    && (host.resolve(p + s).At? ==> host.resolve(p).At?)
  }

  /** An existing path leads to the same places as what it resolves to, its ancestors exist as well, and what is not
      there cannot be followed. */
  ghost predicate Lawful(host: Host) {
    && (forall p: Abs, s: Abs {:trigger Follows(host, p, s)} :: Follows(host, p, s))
    && (forall p: Abs :: host.lstat(p) == Missing ==> host.stat(p) == NotThere)
  }

  lemma {:induction false} NearestMoves(host: Host, p: Abs, q: Abs, s: Abs, n: nat)
    requires Lawful(host) && host.resolve(p) == At(q) && |p| <= n <= |p + s|
    ensures
      var moved := Nearest(host, q + s, |q| + n - |p|);
      && Nearest(host, p + s, n).Some? && Nearest(host, p + s, n).value >= |p|
      && moved == Some(|q| + Nearest(host, p + s, n).value - |p|)
    decreases n
  {
    var i := n - |p|;
    assert (p + s)[..n] == p + s[..i] && (q + s)[..|q| + i] == q + s[..i];
    assert Follows(host, p, s[..i]);
    if n > |p| && !host.resolve((p + s)[..n]).At? {
      NearestMoves(host, p, q, s, n - 1);
    } else if n == |p| {
      assert p + s[..0] == p;
    }
  }

  /** Resolving an existing ancestor first changes nothing. */
  lemma CanonicalMoves(host: Host, p: Abs, q: Abs, s: Abs)
    requires Lawful(host) && host.resolve(p) == At(q)
    ensures Canonical(host, p + s) == Canonical(host, q + s)
  {
    NearestMoves(host, p, q, s, |p + s|);
    var n := Nearest(host, p + s, |p + s|).value;
    var i := n - |p|;
    assert (p + s)[..n] == p + s[..i] && (q + s)[..|q| + i] == q + s[..i];
    assert (p + s)[n..] == s[i..] && (q + s)[|q| + i..] == s[i..];
    assert Follows(host, p, s[..i]);
  }

  /** Resolving the root of a path first, and then the path below it, is resolving the path. */
  lemma CanonicalBelow(host: Host, root: Abs, rel: Abs)
    requires Lawful(host)
    ensures Canonical(host, Canonical(host, root) + rel) == Canonical(host, root + rel)
  {
    match Nearest(host, root, |root|) {
      case None =>
      case Some(n) =>
        var q := host.resolve(root[..n]).path;
        assert root[..n] + (root[n..] + rel) == root + rel;
        assert q + root[n..] + rel == q + (root[n..] + rel);
        CanonicalMoves(host, root[..n], q, root[n..] + rel);
    }
  }

  lemma CanonicalTwice(host: Host, path: Abs)
    requires Lawful(host)
    ensures Canonical(host, Canonical(host, path)) == Canonical(host, path)
  {
    CanonicalBelow(host, path, []);
    assert path + [] == path && Canonical(host, path) + [] == Canonical(host, path);
  }

  // ----- whether something is in the way -----

  /** `parentPathConflictReason` */
  function ParentConflict(host: Host, path: Abs): bool {
    var parent := Dir(path);
    if parent == [] then false
    else match host.stat(parent)
      case Directory(_, _) => false
      case NotDirectory => true
      case NotThere => ParentConflict(host, parent)
      case StatError => true
  }

  /** `workspaceRootConflictReason` */
  function RootConflict(host: Host, path: Abs): bool {
    match host.stat(path)
    case Directory(readable, empty) => !readable || !empty
    case NotDirectory => true
    case NotThere => ParentConflict(host, path)
    case StatError => true
  }

  /** `pathConflictReason`: an existing empty directory is in the way, unless it is the workspace root. */
  function PathConflict(host: Host, path: Abs, root: Option<Abs>): bool {
    if root.Some? && Canonical(host, path) == Canonical(host, root.value) then RootConflict(host, path)
    else match host.lstat(path)
      case Present => true
      case Missing => ParentConflict(host, path)
      case Unknown => true
  }
}
