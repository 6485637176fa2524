/** What is reported of the clones when one of them fails. */
module FailureReports {
  import opened Paths
  import opened Projects
  import opened Disks
  import opened Placeholders
  import opened Cloning
  import opened Planner
  import opened Execution
  import opened Bootstrap

  // ----- when the report is right -----

  lemma {:induction false} NoClonesIn(actions: seq<Action>)
    ensures ClonesOf(actions) == [] <==> forall a <- actions :: a.kind != CloneIt
  {
    if actions != [] {
      var n := |actions| - 1;
      NoClonesIn(actions[..n]);
      assert actions == actions[..n] + [actions[n]];
    }
  }

  lemma {:induction false} ClonesAdd(first: seq<Action>, second: seq<Action>)
    ensures ClonesOf(first + second) == ClonesOf(first) + ClonesOf(second)
  {
    if second == [] {
      assert first + second == first;
    } else {
      var n := |second| - 1;
      assert (first + second)[..|first| + n] == first + second[..n];
      ClonesAdd(first, second[..n]);
    }
  }

  function FirstClone(actions: seq<Action>): (n: nat)
    ensures n <= |actions| && (n < |actions| ==> actions[n].kind == CloneIt)
    ensures forall i :: 0 <= i < n ==> actions[i].kind != CloneIt
  {
    if actions == [] || actions[0].kind == CloneIt then 0 else 1 + FirstClone(actions[1..])
  }

  /** After a failed clone nothing is reported.  That is what was cloned exactly if nothing was started, or the first
      clone of the plan is the one that cannot go through; and so it always is in a plan with at most one clone. */
  lemma FailureReport(codec: Codec, fs: Fs, before: Fs, root: Option<Abs>, actions: seq<Action>, gits: seq<GitOutcome>,
                      matches: Action -> bool, n: nat)
    requires |gits| == |actions| && GotStuck(codec, fs, before, root, actions, gits, matches, n)
    ensures n <= |actions|
    ensures ClonesOf(actions[..n]) == [] <==>
        var first := FirstClone(actions);
        !Passes(actions, matches)
        || (first < |actions| && !GoesThrough(codec, before, root, actions[first], gits[first]))
    ensures |ClonesOf(actions)| <= 1 ==> ClonesOf(actions[..n]) == []
  {
    NoClonesIn(actions[..n]);
    if Passes(actions, matches) {
      var first := FirstClone(actions);
      assert first < n ==> actions[first] in actions[..n];
      assert actions == actions[..n] + [actions[n]] + actions[n + 1..];
      assert [actions[n]][..0] == [];
      ClonesAdd(actions[..n] + [actions[n]], actions[n + 1..]);
      ClonesAdd(actions[..n], [actions[n]]);
    }
  }

  // ----- two projects, of which the second cannot be cloned -----

  const ROOT: Abs := ["w"]

  function OnlyRoot(): Fs { map[[] := Folder, ROOT := Folder] }

  function MissingRow(id: nat, name: string): Project {
    Project(id, name, name, name, Some(ROOT), Some(if Plain(name) then ROOT + [name] else ROOT), CANONICAL)
  }

  function TwoRows(): Rows { map[1 := MissingRow(1, "a"), 2 := MissingRow(2, "b")] }

  /** A project whose directory is missing in the root is to be cloned there, and may be. */
  lemma MissingIsCloned(codec: Codec, id: nat, name: string)
    requires Plain(name) && id > 0
    ensures
      var a := Classify(codec, OnlyRoot(), Some(ROOT), MissingRow(id, name));
      a.kind == CloneIt && a.path == ROOT + [name] && MayClone(codec, OnlyRoot(), Some(ROOT), a)
    ensures !IsCheckout(OnlyRoot(), ROOT + [name])
  {
    WithinIsProperPrefix(ROOT + [name], ROOT);
    assert Dir(ROOT + [name]) == ROOT && Stat(OnlyRoot(), ROOT + [name]) == NotExist;
    assert |BarrierPath(ROOT + [name])| == 3;
  }

  /** The action with a project's alias is the one for its row. */
  lemma ActionWithAlias(actions: seq<Action>, codec: Codec, fs: Fs, root: Option<Abs>, rows: Rows, request: Request,
                        i: nat, id: nat)
    requires Sound(rows) && IsRegistryPlan(actions, codec, fs, root, rows, request) && i < |actions|
    requires id in rows && rows[id].alias == actions[i].alias
    ensures actions[i] == Classify(codec, fs, root, rows[id])
  {
    assert actions[i] in actions;
  }

  lemma TwoPass(actions: seq<Action>, matches: Action -> bool)
    requires |actions| == 2 && actions[0].kind == actions[1].kind == CloneIt
    requires !(actions[0].path <= actions[1].path) && !(actions[1].path <= actions[0].path)
    ensures Passes(actions, matches)
  {
    OverlapsIsComparable(actions[0].path, actions[1].path);
  }

  lemma TwoInOrder(actions: seq<Action>, first: string, second: string)
    requires InOrder(actions, FirstOnes([first, second])) && first != second
    ensures |actions| == 2 && actions[0].alias == first && actions[1].alias == second
  {
    assert [first, second][..1] == [first] && [first][..0] == [];
    assert FirstOnes([first]) == [first];
  }

  lemma PlanForTwo(codec: Codec, actions: seq<Action>, matches: Action -> bool)
    requires Sound(TwoRows())
    requires IsRegistryPlan(actions, codec, OnlyRoot(), Some(ROOT), TwoRows(), ByAlias(["a", "b"]))
    ensures |actions| == 2 && Passes(actions, matches)
    ensures actions[0] == Classify(codec, OnlyRoot(), Some(ROOT), MissingRow(1, "a"))
    ensures actions[1] == Classify(codec, OnlyRoot(), Some(ROOT), MissingRow(2, "b"))
  {
    TwoInOrder(actions, "a", "b");
    ActionWithAlias(actions, codec, OnlyRoot(), Some(ROOT), TwoRows(), ByAlias(["a", "b"]), 0, 1);
    ActionWithAlias(actions, codec, OnlyRoot(), Some(ROOT), TwoRows(), ByAlias(["a", "b"]), 1, 2);
    MissingIsCloned(codec, 1, "a");
    MissingIsCloned(codec, 2, "b");
    assert actions[0].path[1] != actions[1].path[1];
    TwoPass(actions, matches);
  }

  lemma FirstIsCloned(codec: Codec, fs: Fs, actions: seq<Action>, gits: seq<GitOutcome>, matches: Action -> bool,
                      n: nat)
    requires |gits| == |actions| == 2 && GitIsSane(gits[0]) && gits[0].Finished? && !gits[1].Finished?
    requires Passes(actions, matches) && actions[0].kind == CloneIt && actions[0].path == ROOT + ["a"]
    requires MayClone(codec, OnlyRoot(), Some(ROOT), actions[0]) && actions[1].path == ROOT + ["b"]
    requires GotStuck(codec, fs, OnlyRoot(), Some(ROOT), actions, gits, matches, n)
    ensures n == 1 && ClonesOf(actions[..n]) == [actions[0]] && IsCheckout(fs, ROOT + ["a"])
  {
    assert GoesThrough(codec, OnlyRoot(), Some(ROOT), actions[0], gits[0]);
    assert actions[..1][..0] == [];
    var middle :| Progress(middle, OnlyRoot(), actions, gits, n)
      && (fs == middle || (actions[n].path !in middle && fs == WithFolders(middle, Dir(actions[n].path))));
    ClonedIsCheckout(middle, ROOT + ["a"], gits[0].tree);
    assert Dir(actions[1].path) == ROOT;
    WithFoldersAt(middle, ROOT, BarrierPath(ROOT + ["a"]));
  }

  /** Two missing projects of which only the first can be cloned: its checkout is there after the run, and no clone is
      reported. */
  method TwoClones(codec: Codec, disk: Disk, store: ProjectStore, git: Action -> GitOutcome, matches: Action -> bool)
    returns (error: Option<BootstrapError>, cloned: seq<Action>)
    requires store.Valid() && disk.Valid() && Placeholders.Lawful(codec)
    requires disk.fs == OnlyRoot() && store.rows == TwoRows()
    requires forall a: Action :: GitIsSane(git(a)) && (git(a).Finished? <==> a.alias == "a")
    modifies store, disk
    ensures error.Some? && error.value.ExecutionFailed? && cloned == [] && store.rows == old(store.rows)
    ensures IsCheckout(disk.fs, ROOT + ["a"]) && !IsCheckout(old(disk.fs), ROOT + ["a"])
  {
    ghost var actions, n;
    error, cloned, actions, n := ApplyRegistry(codec, disk, Some(ROOT), store, ByAlias(["a", "b"]), git, matches);
    PlanForTwo(codec, actions, matches);
    MissingIsCloned(codec, 1, "a");
    MissingIsCloned(codec, 2, "b");
    var gits := Gits(actions, git);
    assert gits[0].Finished? && !gits[1].Finished? && !Progress(disk.fs, OnlyRoot(), actions, gits, 2);
    FirstIsCloned(codec, disk.fs, actions, gits, matches, n);
  }
}
