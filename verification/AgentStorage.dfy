/** Where an agent run's directory and lock file are, and which run ids that is sound for. */
module AgentStorage {
  import opened Paths

  datatype Refusal = InvalidRunId | OutsideStorage

  datatype RunDirResult = RunDir(path: seq<string>) | Refused(why: Refusal)

  predicate IsBlank(s: string) { Trim(s) == "" }

  function TrimSlashes(s: string): string {
    if s != "" && s[|s| - 1] == '/' then TrimSlashes(s[..|s| - 1]) else s
  }

  /** `filepath.Base` */
  function Base(s: string): string {
    var t := TrimSlashes(s);
    if s == "" then "." else if t == "" then "/" else Split(t)[|Split(t)| - 1]
  }

  /** `validateRunID` */
  predicate ValidRunId(id: string) { !IsBlank(id) && id != "." && id != ".." && Base(id) == id }

  /** `managedRunDir`, with the agents directory already absolute and clean. */
  function ManagedRunDir(agents: Abs, id: string, workspace: Abs): RunDirResult {
    if !ValidRunId(id) then Refused(InvalidRunId)
    else
      var expected := CleanFrom(true, agents, Split(id) + ["workspace"]);
      if workspace != expected then Refused(OutsideStorage) else RunDir(Dir(workspace))
  }

  /** `runLockPath` */
  function LockPath(runDir: Abs): seq<string> {
    Dir(runDir) + [".locks", (if runDir == [] then "/" else runDir[|runDir| - 1]) + ".lock"]
  }

  lemma {:induction false} TrimKeepsSlashFree(s: string)
    ensures TrimSlashes(s) <= s && ('/' !in s ==> TrimSlashes(s) == s)
  {
    if s != "" && s[|s| - 1] == '/' { TrimKeepsSlashFree(s[..|s| - 1]); }
  }

  lemma SplitSlashFree(s: string)
    requires '/' !in s
    ensures Split(s) == [s]
  {
  }

  /** The id check lets through the one-segment names and, besides them, just "/". */
  lemma ValidRunIds(id: string)
    ensures ValidRunId(id) <==> id == "/" || (Plain(id) && !IsBlank(id))
  {
    TrimKeepsSlashFree(id);
    if id == "/" {
      assert id[..0] == "" && TrimSlashes(id) == "";
    } else if '/' !in id {
      SplitSlashFree(id);
    }
  }

  /** A managed run directory is the directory of the run's name in the agents directory if, and only if, the
      run is not called "/"; that name passes the check and stands for the agents directory itself. */
  lemma ManagedRunDirIsItsOwn(agents: Abs, id: string, workspace: Abs)
    requires ManagedRunDir(agents, id, workspace).RunDir?
    ensures
      var dir := ManagedRunDir(agents, id, workspace).path;
      && (id != "/" <==> dir == agents + [id])
      && (id == "/" <==> dir == agents)
      && workspace == dir + ["workspace"]
  {
    ValidRunIds(id);
    if id == "/" {
      assert Split(id) == ["", ""] by {
        assert IndexOfSlash(id) == 0 && id[1..] == "" && id[..0] == "";
        SplitSlashFree("");
      }
      var raw := Split(id) + ["workspace"];
      assert raw == ["", "", "workspace"] && raw[1..] == ["", "workspace"] && raw[1..][1..] == ["workspace"];
      assert CleanFrom(true, agents, raw) == CleanFrom(true, agents, ["workspace"]);
      CleanFromKeepsPlain(true, agents, ["workspace"]);
      assert Dir(agents + ["workspace"]) == agents;
    } else {
      SplitSlashFree(id);
      CleanFromKeepsPlain(true, agents, [id, "workspace"]);
      assert agents + [id, "workspace"] == agents + [id] + ["workspace"];
      assert [id] + ["workspace"] == [id, "workspace"];
      assert Dir(agents + [id] + ["workspace"]) == agents + [id];
    }
  }

  /** Different runs have run directories of which neither holds the other, so removing one leaves the rest. */
  lemma RunDirsAreApart(agents: Abs, id: string, other: string, w: Abs, w': Abs)
    requires ManagedRunDir(agents, id, w).RunDir? && ManagedRunDir(agents, other, w').RunDir?
    requires id != "/" && other != "/" && id != other
    ensures !Overlaps(ManagedRunDir(agents, id, w).path, ManagedRunDir(agents, other, w').path)
  {
    ManagedRunDirIsItsOwn(agents, id, w);
    ManagedRunDirIsItsOwn(agents, other, w');
    OverlapsIsComparable(agents + [id], agents + [other]);
    assert (agents + [id])[|agents|] != (agents + [other])[|agents|];
  }

  /** Removing a run's directory keeps every run's lock file if, and only if, the run is not called ".locks";
      and two runs share a lock file only if they are the same run. */
  lemma LockFilesSurvive(agents: Abs, id: string, other: string, w: Abs, w': Abs)
    requires ManagedRunDir(agents, id, w).RunDir? && ManagedRunDir(agents, other, w').RunDir?
    requires id != "/" && other != "/"
    ensures
      var removed, lock := ManagedRunDir(agents, id, w).path, LockPath(ManagedRunDir(agents, other, w').path);
      && (removed <= lock <==> id == ".locks")
      && (LockPath(removed) == lock <==> id == other)
  {
    ManagedRunDirIsItsOwn(agents, id, w);
    ManagedRunDirIsItsOwn(agents, other, w');
    ValidRunIds(id);
    ValidRunIds(other);
    LockPathOf(agents, id);
    LockPathOf(agents, other);
    var lock, removed := agents + [".locks", other + ".lock"], agents + [id];
    assert removed[|agents|] == id && lock[|agents|] == ".locks";
    if id == ".locks" { assert lock[..|agents| + 1] == removed; }
    if LockPath(removed) == lock {
      assert lock[|agents| + 1] == id + ".lock" == other + ".lock";
      assert (id + ".lock")[..|id|] == id && (other + ".lock")[..|other|] == other;
    }
  }

  lemma LockPathOf(agents: Abs, id: string)
    requires Plain(id)
    ensures LockPath(agents + [id]) == agents + [".locks", id + ".lock"]
  {
  }
}
