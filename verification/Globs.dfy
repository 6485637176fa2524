/** `matchHandoffGlob`: patterns whose "**" segments stand for any run of path segments.

    `one` is `path.Match` on a single segment, false where that reports an error. */
module Globs {
  import Paths

  type OneSegment = (string, string) -> bool

  function Flatten(parts: seq<seq<string>>): seq<string> {
    if parts == [] then [] else parts[0] + Flatten(parts[1..])
  }

  /** What one pattern segment stands for: any run of path segments, or one that it matches. */
  predicate StandsFor(one: OneSegment, segment: string, run: seq<string>) {
    segment == "**" || (|run| == 1 && one(segment, run[0]))
  }

  /** The path falls into as many runs as the pattern has segments, each one its segment stands for. */
  predicate Assigns(one: OneSegment, pattern: seq<string>, rel: seq<string>, runs: seq<seq<string>>) {
    && |runs| == |pattern| && Flatten(runs) == rel
    && (forall i :: 0 <= i < |pattern| ==> StandsFor(one, pattern[i], runs[i]))
  }

  ghost predicate Means(one: OneSegment, pattern: seq<string>, rel: seq<string>) {
    exists runs :: Assigns(one, pattern, rel, runs)
  }

  /** The recursion on its two indices, as slices. */
  predicate Matches(one: OneSegment, pattern: seq<string>, rel: seq<string>)
    decreases |pattern|
  {
    if pattern == [] then rel == []
    else if pattern[0] == "**" then exists k | 0 <= k <= |rel| :: Matches(one, pattern[1..], rel[k..])
    else rel != [] && one(pattern[0], rel[0]) && Matches(one, pattern[1..], rel[1..])
  }

  method MatchFrom(one: OneSegment, pattern: seq<string>, rel: seq<string>, patternIndex: nat, relIndex: nat)
    returns (matched: bool)
    requires patternIndex <= |pattern| && relIndex <= |rel|
    ensures matched == Matches(one, pattern[patternIndex..], rel[relIndex..])
    decreases |pattern| - patternIndex
  {
    if patternIndex == |pattern| { return relIndex == |rel|; }
    ghost var rest := rel[relIndex..];
    assert pattern[patternIndex..][1..] == pattern[patternIndex + 1..];
    if pattern[patternIndex] == "**" {
      var next := relIndex;
      while next <= |rel|
        invariant relIndex <= next <= |rel| + 1
        invariant forall k :: 0 <= k < next - relIndex ==> !Matches(one, pattern[patternIndex + 1..], rest[k..])
      {
        assert rest[next - relIndex..] == rel[next..];
        var found := MatchFrom(one, pattern, rel, patternIndex + 1, next);
        if found { return true; }
        next := next + 1;
      }
      return false;
    }
    if relIndex == |rel| { return false; }
    if !one(pattern[patternIndex], rel[relIndex]) { return false; }
    assert rest[1..] == rel[relIndex + 1..];
    matched := MatchFrom(one, pattern, rel, patternIndex + 1, relIndex + 1);
  }

  /** The matcher says yes exactly when some assignment of the path's segments to the pattern's exists. */
  method MatchHandoffGlob(one: OneSegment, pattern: string, rel: string) returns (matched: bool)
    ensures matched <==> Means(one, Paths.Split(pattern), Paths.Split(rel))
  {
    var patternParts, relParts := Paths.Split(pattern), Paths.Split(rel);
    matched := MatchFrom(one, patternParts, relParts, 0, 0);
    assert patternParts[0..] == patternParts && relParts[0..] == relParts;
    MatchesIsMeaning(one, patternParts, relParts);
  }

  lemma {:induction false} MatchesGivesRuns(one: OneSegment, pattern: seq<string>, rel: seq<string>)
    returns (runs: seq<seq<string>>)
    requires Matches(one, pattern, rel)
    ensures Assigns(one, pattern, rel, runs)
    decreases |pattern|
  {
    if pattern == [] { return []; }
    var k: nat :| k <= |rel| && Matches(one, pattern[1..], rel[k..]) &&
        (pattern[0] != "**" ==> k == 1 && one(pattern[0], rel[0]));
    var rest := MatchesGivesRuns(one, pattern[1..], rel[k..]);
    runs := [rel[..k]] + rest;
    assert runs[1..] == rest && rel[..k] + rel[k..] == rel;
  }

  lemma {:induction false} RunsGiveMatches(one: OneSegment, pattern: seq<string>, rel: seq<string>,
                                           runs: seq<seq<string>>)
    requires Assigns(one, pattern, rel, runs)
    ensures Matches(one, pattern, rel)
    decreases |pattern|
  {
    if pattern != [] {
      var k := |runs[0]|;
      assert rel[k..] == Flatten(runs[1..]) && StandsFor(one, pattern[0], runs[0]);
      RunsGiveMatches(one, pattern[1..], rel[k..], runs[1..]);
    }
  }

  lemma MatchesIsMeaning(one: OneSegment, pattern: seq<string>, rel: seq<string>)
    ensures Matches(one, pattern, rel) <==> Means(one, pattern, rel)
  {
    if Matches(one, pattern, rel) {
      var runs := MatchesGivesRuns(one, pattern, rel);
    } else if Means(one, pattern, rel) {
      var runs :| Assigns(one, pattern, rel, runs);
      RunsGiveMatches(one, pattern, rel, runs);
    }
  }

  // ----- laws -----

  ghost predicate SplitsAt(one: OneSegment, p: seq<string>, q: seq<string>, rel: seq<string>, k: nat) {
    k <= |rel| && Matches(one, p, rel[..k]) && Matches(one, q, rel[k..])
  }

  lemma {:induction false} MatchSplits(one: OneSegment, p: seq<string>, q: seq<string>, rel: seq<string>)
    returns (k: nat)
    requires Matches(one, p + q, rel)
    ensures SplitsAt(one, p, q, rel, k)
    decreases |p|
  {
    if p == [] {
      assert p + q == q && rel[0..] == rel;
      return 0;
    }
    assert (p + q)[1..] == p[1..] + q;
    var j: nat :| j <= |rel| && Matches(one, p[1..] + q, rel[j..]) && (p[0] != "**" ==> j == 1 && one(p[0], rel[0]));
    var n := MatchSplits(one, p[1..], q, rel[j..]);
    k := j + n;
    assert rel[j..][..n] == rel[..k][j..] && rel[j..][n..] == rel[k..];
  }

  lemma {:induction false} SplitMatches(one: OneSegment, p: seq<string>, q: seq<string>, rel: seq<string>, k: nat)
    requires SplitsAt(one, p, q, rel, k)
    ensures Matches(one, p + q, rel)
    decreases |p|
  {
    if p == [] {
      assert p + q == q && rel[0..] == rel;
    } else {
      assert (p + q)[1..] == p[1..] + q;
      var j: nat :| j <= k && Matches(one, p[1..], rel[..k][j..]) && (p[0] != "**" ==> j == 1 && one(p[0], rel[0]));
      assert rel[..k][j..] == rel[j..][..k - j] && rel[k..] == rel[j..][k - j..];
      SplitMatches(one, p[1..], q, rel[j..], k - j);
    }
  }

  /** p followed by q matches a path exactly when the path splits into one that p matches and one q matches. */
  lemma SplitLaw(one: OneSegment, p: seq<string>, q: seq<string>, rel: seq<string>)
    ensures Matches(one, p + q, rel) <==> exists k: nat :: SplitsAt(one, p, q, rel, k)
  {
    if Matches(one, p + q, rel) {
      var k := MatchSplits(one, p, q, rel);
    }
    if k: nat :| SplitsAt(one, p, q, rel, k) {
      SplitMatches(one, p, q, rel, k);
    }
  }

  /** Wherever it stands in a pattern, a doubled "**" matches what a single one does. */
  lemma DoubleStarIsStar(one: OneSegment, p: seq<string>, q: seq<string>, rel: seq<string>)
    ensures Matches(one, p + ["**", "**"] + q, rel) <==> Matches(one, p + ["**"] + q, rel)
  {
    var twice, once := ["**", "**"] + q, ["**"] + q;
    assert p + ["**", "**"] + q == p + twice && p + ["**"] + q == p + once;
    SplitLaw(one, p, twice, rel);
    SplitLaw(one, p, once, rel);
    forall k | 0 <= k <= |rel| ensures Matches(one, twice, rel[k..]) <==> Matches(one, once, rel[k..]) {
      StarTwice(one, q, rel[k..]);
    }
    forall k: nat ensures SplitsAt(one, p, twice, rel, k) <==> SplitsAt(one, p, once, rel, k) {}
  }

  lemma StarTwice(one: OneSegment, q: seq<string>, rel: seq<string>)
    ensures Matches(one, ["**", "**"] + q, rel) <==> Matches(one, ["**"] + q, rel)
  {
    var twice, once := ["**", "**"] + q, ["**"] + q;
    assert twice[1..] == once && once[1..] == q;
    if Matches(one, once, rel) {
      assert rel[0..] == rel;
    }
    if Matches(one, twice, rel) {
      var j :| 0 <= j <= |rel| && Matches(one, once, rel[j..]);
      var k :| 0 <= k <= |rel[j..]| && Matches(one, q, rel[j..][k..]);
      assert rel[j..][k..] == rel[j + k..];
    }
  }
}
