/** The unbounded searches for an unused project alias: numbered names are tried until one is free. */
module Names {

  // ----- decimal numerals -----

  function Digit(d: nat): char
    requires d < 10
  {
    "0123456789"[d]
  }

  predicate IsDigit(c: char) { '0' <= c <= '9' }

  function Decimal(n: nat): (s: string)
    ensures s != "" && forall c <- s :: IsDigit(c)
  {
    (if n < 10 then "" else Decimal(n / 10)) + [Digit(n % 10)]
  }

  lemma {:induction false} DecimalInjective(m: nat, n: nat)
    requires Decimal(m) == Decimal(n)
    ensures m == n
  {
    var s, t := Decimal(m), Decimal(n);
    assert s[|s| - 1] == Digit(m % 10) && t[|t| - 1] == Digit(n % 10);
    assert m % 10 == n % 10;
    assert s[..|s| - 1] == if m < 10 then "" else Decimal(m / 10);
    assert t[..|t| - 1] == if n < 10 then "" else Decimal(n / 10);
    if m >= 10 && n >= 10 { DecimalInjective(m / 10, n / 10); }
  }

  /** The number that a numeral is read as. */
  function Value(s: string): nat
    requires forall c <- s :: IsDigit(c)
  {
    if s == "" then 0 else
      assert IsDigit(s[|s| - 1]);
      10 * Value(s[..|s| - 1]) + (s[|s| - 1] as int - '0' as int)
  }

  /** A number's numeral reads back as the number, and has no zero in front. */
  lemma {:induction false} DecimalReadsBack(n: nat)
    ensures Value(Decimal(n)) == n && (Decimal(n)[0] == '0' <==> n == 0)
  {
    var s := Decimal(n);
    assert s[..|s| - 1] == if n < 10 then "" else Decimal(n / 10);
    assert s[|s| - 1] == Digit(n % 10);
    if n >= 10 { DecimalReadsBack(n / 10); }
  }

  // ----- the candidate names -----

  /** `prefix_id`, then `prefix_id_1`, `prefix_id_2`, ... */
  function Numbered(prefix: string, id: nat, suffix: nat): string {
    prefix + Decimal(id) + (if suffix == 0 then "" else "_" + Decimal(suffix))
  }

  const TEMP_PREFIX := "__codemesh_manifest_"
  const ROLLBACK_PREFIX := "__codemesh_manifest_rollback_"

  function TempCandidate(id: nat): nat -> string { (n: nat) => Numbered(TEMP_PREFIX, id, n) }

  function RollbackCandidate(id: nat): nat -> string { (n: nat) => Numbered(ROLLBACK_PREFIX, id, n) }

  /** The name itself, then `alias-2`, `alias-3`, ... */
  function ScanCandidate(alias: string): nat -> string {
    var base := if alias == "" then "project" else alias;
    (n: nat) => if n == 0 then base else base + "-" + Decimal(n + 1)
  }

  lemma DigitsBeforeRest(a: string, x: string, b: string, y: string)
    requires forall c <- a :: IsDigit(c)
    requires forall c <- b :: IsDigit(c)
    requires (x == "" || !IsDigit(x[0])) && (y == "" || !IsDigit(y[0]))
    requires a + x == b + y
    ensures a == b && x == y
  {
    assert a == (a + x)[..|a|] && b == (b + y)[..|b|];
    assert x == (a + x)[|a|..] && y == (b + y)[|b|..];
  }

  lemma NumberedInjective(prefix: string, id: nat, suffix: nat, id': nat, suffix': nat)
    requires Numbered(prefix, id, suffix) == Numbered(prefix, id', suffix')
    ensures id == id' && suffix == suffix'
  {
    var x := if suffix == 0 then "" else "_" + Decimal(suffix);
    var y := if suffix' == 0 then "" else "_" + Decimal(suffix');
    var s, t := Decimal(id) + x, Decimal(id') + y;
    assert Numbered(prefix, id, suffix)[|prefix|..] == s && Numbered(prefix, id', suffix')[|prefix|..] == t;
    DigitsBeforeRest(Decimal(id), x, Decimal(id'), y);
    DecimalInjective(id, id');
    if suffix != 0 && suffix' != 0 {
      assert x[1..] == Decimal(suffix) && y[1..] == Decimal(suffix');
      DecimalInjective(suffix, suffix');
    }
  }

  /** What every temporary alias looks like, and no rollback alias. */
  predicate TempLike(alias: string) {
    var n := |TEMP_PREFIX|;
    |alias| > n && alias[..n] == TEMP_PREFIX && IsDigit(alias[n])
  }

  lemma TempIsTempLike(id: nat, suffix: nat)
    ensures TempLike(TempCandidate(id)(suffix))
  {
  }

  lemma RollbackIsNotTempLike(id: nat, suffix: nat)
    ensures !TempLike(RollbackCandidate(id)(suffix))
  {
  }

  // ----- the search -----

  ghost predicate Injective(candidate: nat -> string) {
    forall m, n :: candidate(m) == candidate(n) ==> m == n
  }

  lemma CandidatesInjective(id: nat, alias: string)
    ensures Injective(TempCandidate(id)) && Injective(RollbackCandidate(id)) && Injective(ScanCandidate(alias))
  {
    forall m: nat, n: nat | TempCandidate(id)(m) == TempCandidate(id)(n) ensures m == n {
      NumberedInjective(TEMP_PREFIX, id, m, id, n);
    }
    forall m: nat, n: nat | RollbackCandidate(id)(m) == RollbackCandidate(id)(n) ensures m == n {
      NumberedInjective(ROLLBACK_PREFIX, id, m, id, n);
    }
    forall m: nat, n: nat | ScanCandidate(alias)(m) == ScanCandidate(alias)(n) ensures m == n {
      ScanCandidateInjective(alias, m, n);
    }
  }

  lemma ScanCandidateInjective(alias: string, m: nat, n: nat)
    requires ScanCandidate(alias)(m) == ScanCandidate(alias)(n)
    ensures m == n
  {
    var base := if alias == "" then "project" else alias;
    var s, t := ScanCandidate(alias)(m), ScanCandidate(alias)(n);
    if m == 0 || n == 0 {
      assert |s| == |t|;
    } else {
      assert s[|base| + 1..] == Decimal(m + 1) && t[|base| + 1..] == Decimal(n + 1);
      DecimalInjective(m + 1, n + 1);
    }
  }

  /** The number of the first candidate not in `used`; each one tried and found used is used up. */
  function FirstFree(candidate: nat -> string, used: set<string>, from: nat): nat
    decreases |used|
  {
    if candidate(from) in used then FirstFree(candidate, used - {candidate(from)}, from + 1) else from
  }

  /** The search ends at the first candidate that is free. */
  lemma {:induction false} FirstFreeIsFree(candidate: nat -> string, used: set<string>, from: nat)
    requires Injective(candidate)
    ensures
      var n := FirstFree(candidate, used, from);
      from <= n && candidate(n) !in used && forall k :: from <= k < n ==> candidate(k) in used
    decreases |used|
  {
    if candidate(from) in used {
      var rest := used - {candidate(from)};
      FirstFreeIsFree(candidate, rest, from + 1);
      var n := FirstFree(candidate, rest, from + 1);
      assert candidate(n) != candidate(from);
    }
  }

  function FreeName(candidate: nat -> string, used: set<string>): string { candidate(FirstFree(candidate, used, 0)) }

  /** `uniqueAlias`: the unbounded loop ends, at the first candidate not in `used`. */
  method UniqueAlias(alias: string, used: set<string>) returns (name: string)
    ensures name == FreeName(ScanCandidate(alias), used) && name !in used
    ensures
      var base := if alias == "" then "project" else alias;
      if base !in used then name == base else exists k :: FirstNumber(base, used, k) && name == WithNumber(base, k)
  {
    CandidatesInjective(0, alias);
    IsNumbered(alias, used);
    name := Search(ScanCandidate(alias), used);
  }

  function WithNumber(base: string, k: nat): string { base + "-" + Decimal(k) }

  /** The least number, from 2 on, with which a name is free. */
  ghost predicate FirstNumber(base: string, used: set<string>, k: nat) {
    && k >= 2 && WithNumber(base, k) !in used
    && forall j: nat {:trigger WithNumber(base, j)} :: 2 <= j < k ==> WithNumber(base, j) in used
  }

  /** A name in use is followed by the least number, from 2 on, with which it is not. */
  lemma IsNumbered(alias: string, used: set<string>)
    ensures
      var base := if alias == "" then "project" else alias;
      var name := FreeName(ScanCandidate(alias), used);
      if base !in used then name == base else exists k :: FirstNumber(base, used, k) && name == WithNumber(base, k)
  {
    CandidatesInjective(0, alias);
    FirstFreeIsFree(ScanCandidate(alias), used, 0);
    var base := if alias == "" then "project" else alias;
    var n := FirstFree(ScanCandidate(alias), used, 0);
    assert ScanCandidate(alias)(0) == base;
    if base in used {
      assert FreeName(ScanCandidate(alias), used) == WithNumber(base, n + 1);
      forall j: nat | 2 <= j < n + 1 ensures WithNumber(base, j) in used {
        assert ScanCandidate(alias)(j - 1) == WithNumber(base, j);
      }
      assert FirstNumber(base, used, n + 1);
    }
  }

  /** `importTempAlias` and `importRollbackAlias`, but for the recording of the result in `used`. */
  method Search(candidate: nat -> string, used: set<string>) returns (name: string)
    requires Injective(candidate)
    ensures name == FreeName(candidate, used) && name !in used
  {
    FirstFreeIsFree(candidate, used, 0);
    ghost var last := FirstFree(candidate, used, 0);
    var suffix := 0;
    while candidate(suffix) in used
      invariant 0 <= suffix <= last
      decreases last - suffix
    {
      suffix := suffix + 1;
    }
    name := candidate(suffix);
  }
}
