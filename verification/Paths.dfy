/** Slash-separated paths: `strings.Split`, `filepath.Clean`, `filepath.Join`, `filepath.Rel`, and the
    containment tests the repository builds on them.

    A cleaned path is a flag and a list of segments.  `Rel` gives the segments of the relative path;
    "." is the empty list. */
module Paths {

  datatype Option<+T> = None | Some(value: T)

  /** A cleaned path. */
  datatype Path = Path(rooted: bool, segs: seq<string>)

  // ----- text -----

  /** `unicode.IsSpace` */
  predicate IsSpace(c: char) {
    || '\t' <= c <= '\r' || c == ' ' || c == '\U{85}' || c == '\U{A0}' || c == '\U{1680}'
    || '\U{2000}' <= c <= '\U{200A}' || c == '\U{2028}' || c == '\U{2029}' || c == '\U{202F}' || c == '\U{205F}'
    || c == '\U{3000}'
  }

  function TrimLeft(s: string): (r: string)
    ensures r == "" <==> forall c <- s :: IsSpace(c)
    ensures r != "" ==> !IsSpace(r[0])
  {
    if s != "" && IsSpace(s[0]) then TrimLeft(s[1..]) else s
  }

  function TrimRight(s: string): (r: string)
    ensures r <= s && (r == "" <==> forall c <- s :: IsSpace(c))
    ensures r != "" ==> !IsSpace(r[|r| - 1])
  {
    if s != "" && IsSpace(s[|s| - 1]) then TrimRight(s[..|s| - 1]) else s
  }

  /** `strings.TrimSpace` */
  function Trim(s: string): (r: string)
    ensures r == "" <==> forall c <- s :: IsSpace(c)
    ensures r != "" ==> !IsSpace(r[0]) && !IsSpace(r[|r| - 1])
  {
    TrimRight(TrimLeft(s))
  }

  lemma {:induction false} TrimLeftTakesSpace(s: string) returns (front: string)
    ensures s == front + TrimLeft(s) && forall c <- front :: IsSpace(c)
  {
    front := "";
    if s != "" && IsSpace(s[0]) {
      front := TrimLeftTakesSpace(s[1..]);
      assert s == [s[0]] + s[1..];
      front := [s[0]] + front;
    }
  }

  lemma {:induction false} TrimRightTakesSpace(s: string) returns (back: string)
    ensures s == TrimRight(s) + back && forall c <- back :: IsSpace(c)
  {
    back := "";
    if s != "" && IsSpace(s[|s| - 1]) {
      back := TrimRightTakesSpace(s[..|s| - 1]);
      assert s == s[..|s| - 1] + [s[|s| - 1]];
      back := back + [s[|s| - 1]];
    }
  }

  /** Trimming takes white space from both ends, and nothing else. */
  lemma TrimTakesSpace(s: string) returns (front: string, back: string)
    ensures s == front + Trim(s) + back && (forall c <- front :: IsSpace(c)) && forall c <- back :: IsSpace(c)
  {
    front := TrimLeftTakesSpace(s);
    var rest := TrimLeft(s);
    back := TrimRightTakesSpace(rest);
    var trimmed := TrimRight(rest);
    assert front + (trimmed + back) == front + trimmed + back;
  }

  function IndexOfSlash(s: string): (i: nat)
    ensures i <= |s| && (forall k :: 0 <= k < i ==> s[k] != '/') && (i < |s| ==> s[i] == '/')
  {
    if s == "" || s[0] == '/' then 0 else 1 + IndexOfSlash(s[1..])
  }

  /** `strings.Split(s, "/")` */
  function Split(s: string): (parts: seq<string>)
    ensures parts != [] && forall part <- parts :: '/' !in part
    decreases |s|
  {
    var i := IndexOfSlash(s);
    if i == |s| then [s] else [s[..i]] + Split(s[i + 1..])
  }

  /** `strings.Join(parts, "/")` */
  function Joined(parts: seq<string>): string
    requires parts != []
  {
    if |parts| == 1 then parts[0] else parts[0] + "/" + Joined(parts[1..])
  }

  lemma {:induction false} SplitJoined(parts: seq<string>)
    requires parts != [] && forall part <- parts :: '/' !in part
    ensures Split(Joined(parts)) == parts
  {
    var s := Joined(parts);
    var i := IndexOfSlash(s);
    assert parts[0] in parts && s[..|parts[0]|] == parts[0];
    if |parts| == 1 {
      assert i == |s|;
    } else {
      assert s[|parts[0]|] == '/' && i == |parts[0]|;
      assert s[i + 1..] == Joined(parts[1..]);
      SplitJoined(parts[1..]);
      assert Split(s) == [s[..i]] + Split(s[i + 1..]) == [parts[0]] + parts[1..];
    }
  }

  // ----- cleaning -----

  predicate Plain(seg: string) { seg != "" && seg != "." && seg != ".." && '/' !in seg }

  predicate AllPlain(segs: seq<string>) { forall seg <- segs :: Plain(seg) }

  /** What `Clean` can leave: plain segments, after any number of ".." if the path is not rooted. */
  predicate Normal(p: Path)
    decreases |p.segs|
  {
    if p.segs != [] && p.segs[0] == ".." then !p.rooted && Normal(Path(false, p.segs[1..])) else AllPlain(p.segs)
  }

  /** Resolves "." and "..", with the segments kept so far in `kept`. */
  function CleanFrom(rooted: bool, kept: seq<string>, rest: seq<string>): seq<string>
    decreases |rest|
  {
    if rest == [] then kept
    else if rest[0] == "" || rest[0] == "." then CleanFrom(rooted, kept, rest[1..])
    else if rest[0] != ".." then CleanFrom(rooted, kept + [rest[0]], rest[1..])
    else if kept != [] && kept[|kept| - 1] != ".." then CleanFrom(rooted, kept[..|kept| - 1], rest[1..])
    else if rooted then CleanFrom(rooted, kept, rest[1..])
    else CleanFrom(rooted, kept + [".."], rest[1..])
  }

  lemma {:induction false} CleanFromAdd(rooted: bool, kept: seq<string>, a: seq<string>, b: seq<string>)
    ensures CleanFrom(rooted, kept, a + b) == CleanFrom(rooted, CleanFrom(rooted, kept, a), b)
    decreases |a|
  {
    if a == [] {
      assert a + b == b;
    } else {
      assert (a + b)[1..] == a[1..] + b;
      if a[0] == "" || a[0] == "." {
        CleanFromAdd(rooted, kept, a[1..], b);
      } else if a[0] != ".." {
        CleanFromAdd(rooted, kept + [a[0]], a[1..], b);
      } else if kept != [] && kept[|kept| - 1] != ".." {
        CleanFromAdd(rooted, kept[..|kept| - 1], a[1..], b);
      } else if rooted {
        CleanFromAdd(rooted, kept, a[1..], b);
      } else {
        CleanFromAdd(rooted, kept + [".."], a[1..], b);
      }
    }
  }

  /** Anywhere in a path, an empty segment or "." counts for nothing, and neither does a name with ".." after it; nor
      does a ".." at the start of a rooted path.  With `CleanText`, this says what cleaning comes to. */
  lemma CleanLaws(rooted: bool, a: seq<string>, name: string, b: seq<string>)
    requires Plain(name)
    ensures CleanFrom(rooted, [], a + [""] + b) == CleanFrom(rooted, [], a + b)
    ensures CleanFrom(rooted, [], a + ["."] + b) == CleanFrom(rooted, [], a + b)
    ensures CleanFrom(rooted, [], a + [name, ".."] + b) == CleanFrom(rooted, [], a + b)
    ensures CleanFrom(true, [], [".."] + b) == CleanFrom(true, [], b)
  {
    var kept := CleanFrom(rooted, [], a);
    CleanFromAdd(rooted, [], a, b);
    CleanFromAdd(rooted, [], a + [""], b);
    CleanFromAdd(rooted, [], a, [""]);
    CleanFromAdd(rooted, [], a + ["."], b);
    CleanFromAdd(rooted, [], a, ["."]);
    CleanFromAdd(rooted, [], a + [name, ".."], b);
    CleanFromAdd(rooted, [], a, [name, ".."]);
    PushedAndPopped(rooted, kept, name);
    assert ([".."] + b)[1..] == b;
  }

  lemma PushedAndPopped(rooted: bool, kept: seq<string>, name: string)
    requires Plain(name)
    ensures CleanFrom(rooted, kept, [name, ".."]) == kept
  {
    assert [name, ".."][1..] == [".."] && [".."][1..] == [];
    assert (kept + [name])[..|kept|] == kept;
  }

  predicate IsRooted(s: string) { s != "" && s[0] == '/' }

  /** `filepath.Clean` */
  function Clean(s: string): Path { Path(IsRooted(s), CleanFrom(IsRooted(s), [], Split(s))) }

  /** The text of a cleaned path. */
  function Text(p: Path): string {
    if p.rooted then "/" + (if p.segs == [] then "" else Joined(p.segs))
    else if p.segs == [] then "." else Joined(p.segs)
  }

  lemma {:induction false} NormalExtends(p: Path, seg: string)
    requires Normal(p) && (Plain(seg) || (seg == ".." && !p.rooted && (p.segs == [] || p.segs[|p.segs| - 1] == "..")))
    ensures Normal(Path(p.rooted, p.segs + [seg]))
    decreases |p.segs|
  {
    if p.segs != [] && p.segs[0] == ".." {
      assert (p.segs + [seg])[1..] == p.segs[1..] + [seg];
      NormalExtends(Path(false, p.segs[1..]), seg);
    }
  }

  lemma {:induction false} NormalShortens(p: Path)
    requires Normal(p) && p.segs != [] && p.segs[|p.segs| - 1] != ".."
    ensures Normal(Path(p.rooted, p.segs[..|p.segs| - 1]))
    decreases |p.segs|
  {
    if p.segs[0] == ".." {
      assert p.segs[..|p.segs| - 1][1..] == p.segs[1..][..|p.segs| - 2];
      NormalShortens(Path(false, p.segs[1..]));
    }
  }

  lemma {:induction false} CleanFromIsNormal(rooted: bool, kept: seq<string>, rest: seq<string>)
    requires Normal(Path(rooted, kept)) && forall seg <- rest :: '/' !in seg
    ensures Normal(Path(rooted, CleanFrom(rooted, kept, rest)))
    decreases |rest|
  {
    if rest != [] {
      var p := Path(rooted, kept);
      if rest[0] == "" || rest[0] == "." {
        CleanFromIsNormal(rooted, kept, rest[1..]);
      } else if rest[0] != ".." {
        NormalExtends(p, rest[0]);
        CleanFromIsNormal(rooted, kept + [rest[0]], rest[1..]);
      } else if kept != [] && kept[|kept| - 1] != ".." {
        NormalShortens(p);
        CleanFromIsNormal(rooted, kept[..|kept| - 1], rest[1..]);
      } else if rooted {
        CleanFromIsNormal(rooted, kept, rest[1..]);
      } else {
        NormalExtends(p, "..");
        CleanFromIsNormal(rooted, kept + [".."], rest[1..]);
      }
    }
  }

  /** A cleaned path is normal, and a rooted one keeps no "..". */
  lemma CleanIsNormal(s: string)
    ensures Normal(Clean(s)) && (Clean(s).rooted ==> AllPlain(Clean(s).segs))
  {
    CleanFromIsNormal(IsRooted(s), [], Split(s));
  }

  lemma {:induction false} CleanFromKeepsPlain(rooted: bool, kept: seq<string>, rest: seq<string>)
    requires AllPlain(rest)
    ensures CleanFrom(rooted, kept, rest) == kept + rest
    decreases |rest|
  {
    if rest == [] {
      assert kept + rest == kept;
    } else {
      assert rest[0] in rest;
      CleanFromKeepsPlain(rooted, kept + [rest[0]], rest[1..]);
      assert kept + [rest[0]] + rest[1..] == kept + rest;
    }
  }

  lemma {:induction false} CleanFromKeepsNormal(dots: seq<string>, p: Path)
    requires Normal(p) && !p.rooted && forall seg <- dots :: seg == ".."
    ensures CleanFrom(false, dots, p.segs) == dots + p.segs
    decreases |p.segs|
  {
    if p.segs != [] && p.segs[0] == ".." {
      assert dots != [] ==> dots[|dots| - 1] in dots;
      CleanFromKeepsNormal(dots + [".."], Path(false, p.segs[1..]));
      assert dots + [".."] + p.segs[1..] == dots + p.segs;
    } else {
      CleanFromKeepsPlain(false, dots, p.segs);
    }
  }

  lemma {:induction false} NormalSegs(p: Path)
    requires Normal(p)
    ensures forall seg <- p.segs :: seg != "" && seg != "." && '/' !in seg
    decreases |p.segs|
  {
    if p.segs != [] && p.segs[0] == ".." {
      NormalSegs(Path(false, p.segs[1..]));
      assert p.segs == [".."] + p.segs[1..];
    }
  }

  lemma NormalFirst(p: Path)
    requires Normal(p) && p.segs != []
    ensures Joined(p.segs) != "" && Joined(p.segs)[0] != '/'
  {
    NormalSegs(p);
    assert p.segs[0] in p.segs;
  }

  /** Cleaning the text of a normal path gives the path back; so cleaning twice is cleaning once. */
  lemma CleanText(p: Path)
    requires Normal(p)
    ensures Clean(Text(p)) == p
  {
    NormalSegs(p);
    var body := if p.segs == [] then "" else Joined(p.segs);
    if p.segs != [] { SplitJoined(p.segs); NormalFirst(p); }
    if p.rooted {
      var s := Text(p);
      assert s[1..] == body && IndexOfSlash(s) == 0 && s[..0] == "";
      assert Split(s) == [""] + Split(body);
      assert Split(s)[1..] == Split(body);
      if p.segs == [] {
        assert Split("") == [""] && CleanFrom(true, [], [""]) == [];
      } else {
        CleanFromKeepsPlain(true, [], p.segs);
      }
    } else if p.segs == [] {
      assert Split(".") == ["."];
    } else {
      CleanFromKeepsNormal([], p);
    }
  }

  // ----- relative paths and containment -----

  function CommonPrefix(a: seq<string>, b: seq<string>): (n: nat)
    ensures n <= |a| && n <= |b| && a[..n] == b[..n] && (n < |a| && n < |b| ==> a[n] != b[n])
  {
    if a != [] && b != [] && a[0] == b[0] then 1 + CommonPrefix(a[1..], b[1..]) else 0
  }

  /** `filepath.Rel` on cleaned paths; None where it fails. */
  function Rel(base: Path, target: Path): Option<seq<string>> {
    if base == target then Some([])
    else if base.rooted != target.rooted then None
    else
      var n := CommonPrefix(base.segs, target.segs);
      if n < |base.segs| && n < |target.segs| && base.segs[n] == ".." then None
      else Some(seq(|base.segs| - n, _ => "..") + target.segs[n..])
  }

  /** `pathIsAncestor`, and `pathWithin` with its arguments swapped. */
  predicate IsAncestor(parent: Path, child: Path) {
    var rel := Rel(parent, child);
    rel.Some? && rel.value != [] && rel.value[0] != ".."
  }

  /** `pathInside`, and the containment test of the real-path checks. */
  predicate Inside(parent: Path, child: Path) {
    var rel := Rel(parent, child);
    rel.Some? && (rel.value == [] || rel.value[0] != "..")
  }

  /** `pathsOverlap` */
  predicate Overlap(a: Path, b: Path) { a == b || IsAncestor(b, a) || IsAncestor(a, b) }

  lemma RelOfExtension(parent: Path, child: Path)
    requires parent.rooted == child.rooted && parent.segs < child.segs
    ensures Rel(parent, child) == Some(child.segs[|parent.segs|..])
  {
    var n := CommonPrefix(parent.segs, child.segs);
    assert seq(|parent.segs| - n, _ => "..") + child.segs[n..] == child.segs[n..];
  }

  /** Between normal paths without "..", ancestry is being a proper prefix. */
  lemma AncestorIsProperPrefix(parent: Path, child: Path)
    requires AllPlain(parent.segs) && AllPlain(child.segs)
    ensures IsAncestor(parent, child) <==> parent.rooted == child.rooted && parent.segs < child.segs
  {
    if parent.rooted == child.rooted && parent != child {
      var n := CommonPrefix(parent.segs, child.segs);
      if n == |parent.segs| {
        assert parent.segs == child.segs[..n] && n < |child.segs|;
        RelOfExtension(parent, child);
        assert child.segs[n] in child.segs;
      }
    }
  }

  lemma InsideIsPrefix(parent: Path, child: Path)
    requires AllPlain(parent.segs) && AllPlain(child.segs)
    ensures Inside(parent, child) <==> parent.rooted == child.rooted && parent.segs <= child.segs
  {
    AncestorIsProperPrefix(parent, child);
    if parent.segs <= child.segs && parent.segs != child.segs { assert parent.segs < child.segs; }
  }

  lemma OverlapIsComparable(a: Path, b: Path)
    requires AllPlain(a.segs) && AllPlain(b.segs)
    ensures Overlap(a, b) <==> a.rooted == b.rooted && (a.segs <= b.segs || b.segs <= a.segs)
  {
    AncestorIsProperPrefix(a, b);
    AncestorIsProperPrefix(b, a);
  }

  // ----- absolute paths, for the other modules -----

  /** An absolute cleaned path, as its segments. */
  type Abs = p: seq<string> | AllPlain(p)

  predicate Within(child: Abs, parent: Abs) { IsAncestor(Path(true, parent), Path(true, child)) }

  predicate Overlaps(a: Abs, b: Abs) { Overlap(Path(true, a), Path(true, b)) }

  lemma WithinIsProperPrefix(child: Abs, parent: Abs)
    ensures Within(child, parent) <==> parent < child
  {
    AncestorIsProperPrefix(Path(true, parent), Path(true, child));
  }

  lemma OverlapsIsComparable(a: Abs, b: Abs)
    ensures Overlaps(a, b) <==> a <= b || b <= a
  {
    OverlapIsComparable(Path(true, a), Path(true, b));
  }

  /** One path is the other, or above it. */
  predicate Comparable(a: Abs, b: Abs) { a <= b || b <= a }

  function Dir(p: Abs): Abs { if p == [] then [] else p[..|p| - 1] }

  /** `filepath.Join(root, rel)` */
  function JoinRel(root: Abs, rel: seq<string>): (p: seq<string>) { CleanFrom(true, [], root + rel) }

  lemma JoinPlain(root: Abs, rel: seq<string>)
    requires AllPlain(rel)
    ensures JoinRel(root, rel) == root + rel && AllPlain(root + rel)
  {
    CleanFromKeepsPlain(true, [], root + rel);
  }
}
