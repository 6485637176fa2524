/** The protocol by which `agent prepare`, `agent run` and `runs clean` processes share
    the run rows, the run directories, the contract files and the per-run locks.

    Every process has a program counter; an `Event` lets one process take its next atomic
    step, or stop where it is.  `Apply` is the effect of an event on the shared state and
    leaves the state alone when the event is not possible there, so a run of the system is
    just a sequence of events. */
module AgentRuns {

  type RunId = string
  type Proc = nat

  /** One command record; `ticket` numbers the lock acquisitions of all executes. */
  datatype Record = Record(name: string, ticket: nat)

  datatype Deletion = Deletion(run: RunId, locked: bool)

  datatype Stage = Found | Checked | Locked | Reread | Ready | Ran | Rechecked | Written | Persisted

  datatype Pc =
    | Idle
    | Preparing(run: RunId, contractWritten: bool)
      /** From `Reread` to `Ready`, `commands` is the decoded list; from `Ran` on, it ends in the new record. */
    | Executing(stage: Stage, run: RunId, name: string, ticket: nat, commands: seq<Record>)
      /** The final metadata update found no row. */
    | RowGone(run: RunId)
      /** The contract file had no directory to go to. */
    | DirectoryGone(run: RunId)
    | Scanning(kept: nat, todo: seq<RunId>, probed: bool, deletions: seq<Deletion>)
    | Removing(kept: nat, deletions: seq<Deletion>, next: nat)
    | Cleaned(kept: nat, deletions: seq<Deletion>)

  /** What the processes share. */
  datatype World = World(
    rows: map<RunId, seq<Record>>,
    dirs: set<RunId>,
    contracts: map<RunId, seq<Record>>,
    locks: map<RunId, Proc>,
    tickets: nat,
    // History: every id a directory was ever made for, and what each run's executes persisted.
    used: set<RunId>,
    persisted: map<RunId, seq<Record>>)

  datatype State = State(world: World, pcs: map<Proc, Pc>) {
    function Pc(p: Proc): Pc { if p in pcs then pcs[p] else Idle }

    function Moved(p: Proc, to: Step): State { State(to.world, pcs[p := to.pc]) }
  }

  /** Where a step leaves the world and the process that takes it. */
  datatype Step = Step(world: World, pc: Pc)

  const Initial := State(World(map[], {}, map[], map[], 0, {}, map[]), map[])

  datatype Event =
    | MakeRunDir(p: Proc, run: RunId)
    | StartExecute(p: Proc, run: RunId, name: string)
    | StartClean(p: Proc, candidates: seq<RunId>)
    | Go(p: Proc)
      /** An error return or a crash; `tidy` says whether a preparing process still removes its directory. */
    | Stop(p: Proc, tidy: bool)

  predicate Distinct<T(==)>(xs: seq<T>) {
    forall i, j :: 0 <= i < j < |xs| ==> xs[i] != xs[j]
  }

  // ----- the steps -----

  function Apply(s: State, e: Event): State { s.Moved(e.p, StepOf(s.world, s.Pc(e.p), e)) }

  function StepOf(w: World, pc: Pc, e: Event): Step {
    match e
    case MakeRunDir(p, run) =>
      if pc.Idle? && run !in w.used
      then Step(w.(dirs := w.dirs + {run}, used := w.used + {run}), Preparing(run, false)) else Step(w, pc)
    case StartExecute(p, run, name) =>
      if pc.Idle? && run in w.rows then Step(w, Executing(Found, run, name, 0, [])) else Step(w, pc)
    case StartClean(p, candidates) =>
      if pc.Idle? && Distinct(candidates) && (forall r <- candidates :: r in w.rows) && |candidates| <= |w.rows|
      then Step(w, Scanning(|w.rows| - |candidates|, candidates, false, [])) else Step(w, pc)
    case Go(p) => Advance(w, p, pc)
    case Stop(p, tidy) => Stopped(w, p, pc, tidy)
  }

  function Release(w: World, p: Proc): World { w.(locks := map r | r in w.locks && w.locks[r] != p :: w.locks[r]) }

  function RemoveDir(w: World, run: RunId): World { w.(dirs := w.dirs - {run}, contracts := w.contracts - {run}) }

  function Stopped(w: World, p: Proc, pc: Pc, tidy: bool): Step {
    Step(Release(if pc.Preparing? && tidy then RemoveDir(w, pc.run) else w, p), Idle)
  }

  function Advance(w: World, p: Proc, pc: Pc): Step {
    match pc
    case Idle => Step(w, Idle)
    case RowGone(_) => Stopped(w, p, pc, false)
    case DirectoryGone(_) => Stopped(w, p, pc, false)
    case Preparing(_, _) => AdvancePrepare(w, pc)
    case Executing(_, _, _, _, _) => AdvanceExecute(w, p, pc)
    case Scanning(_, _, _, _) => AdvanceScan(w, p, pc)
    case Removing(_, _, _) => AdvanceRemove(w, pc)
    case Cleaned(_, _) => Stopped(w, p, pc, false)
  }

  function AdvancePrepare(w: World, pc: Pc): Step
    requires pc.Preparing?
  {
    if !pc.contractWritten
    then Step(w.(contracts := w.contracts[pc.run := []]), Preparing(pc.run, true))
    else Step(w.(rows := w.rows[pc.run := []], persisted := w.persisted[pc.run := []]), Idle)
  }

  function AdvanceExecute(w: World, p: Proc, pc: Pc): Step
    requires pc.Executing?
  {
    var run := pc.run;
    match pc.stage
    case Found =>
      if run in w.dirs then Step(w, pc.(stage := Checked)) else Stopped(w, p, pc, false)
    case Checked =>
      if run in w.locks then Stopped(w, p, pc, false)
      else Step(w.(locks := w.locks[run := p], tickets := w.tickets + 1), pc.(stage := Locked, ticket := w.tickets))
    case Locked =>
      if run in w.rows then Step(w, pc.(stage := Reread, commands := w.rows[run])) else Stopped(w, p, pc, false)
    case Reread =>
      if run in w.dirs then Step(w, pc.(stage := Ready)) else Stopped(w, p, pc, false)
    case Ready =>
      Step(w, pc.(stage := Ran, commands := pc.commands + [Record(pc.name, pc.ticket)]))
    case Ran =>
      if run in w.dirs then Step(w, pc.(stage := Rechecked)) else Stopped(w, p, pc, false)
    case Rechecked =>
      if run in w.dirs then Step(w.(contracts := w.contracts[run := pc.commands]), pc.(stage := Written))
      else Step(w, DirectoryGone(run))
    case Written =>
      if run in w.rows then
        var known := if run in w.persisted then w.persisted[run] else [];
        Step(w.(rows := w.rows[run := pc.commands],
                persisted := w.persisted[run := known + [Record(pc.name, pc.ticket)]]),
             pc.(stage := Persisted))
      else Step(w, RowGone(run))
    case Persisted => Stopped(w, p, pc, false)
  }

  function AdvanceScan(w: World, p: Proc, pc: Pc): Step
    requires pc.Scanning?
  {
    var Scanning(kept, todo, probed, deletions) := pc;
    if todo == [] then
      Step(w, Removing(kept, deletions, 0))
    else if !probed then
      if todo[0] in w.dirs then Step(w, pc.(probed := true))
      else Step(w, Scanning(kept, todo[1..], false, deletions + [Deletion(todo[0], false)]))
    else if todo[0] in w.locks then
      Step(w, Scanning(kept + 1, todo[1..], false, deletions))
    else
      Step(w.(locks := w.locks[todo[0] := p]),
           Scanning(kept, todo[1..], false, deletions + [Deletion(todo[0], true)]))
  }

  function AdvanceRemove(w: World, pc: Pc): Step
    requires pc.Removing?
  {
    if pc.next < |pc.deletions| then
      Step(RemoveDir(w, pc.deletions[pc.next].run), pc.(next := pc.next + 1))
    else
      Step(w.(rows := w.rows - (set d <- pc.deletions :: d.run)), Cleaned(pc.kept, pc.deletions))
  }

  function Run(s: State, events: seq<Event>): State
    decreases |events|
  {
    if events == [] then s else Run(Apply(s, events[0]), events[1..])
  }

  // ----- what every reachable state satisfies -----

  predicate Holds(pc: Pc, run: RunId) {
    match pc
    case Executing(stage, r, _, _, _) => r == run && !stage.Found? && !stage.Checked?
    case RowGone(r) => r == run
    case DirectoryGone(r) => r == run
    case Scanning(_, _, _, deletions) => Deletion(run, true) in deletions
    case Removing(_, deletions, _) => Deletion(run, true) in deletions
    case Cleaned(_, deletions) => Deletion(run, true) in deletions
    case _ => false
  }

  /** An execute between its check under the lock and the release of the lock. */
  predicate Protected(pc: Pc, run: RunId) {
    pc.Executing? && pc.run == run &&
    match pc.stage
    case Ready | Ran | Rechecked | Written | Persisted => true
    case _ => false
  }

  predicate Increasing(records: seq<Record>, bound: nat) {
    && (forall i, j :: 0 <= i < j < |records| ==> records[i].ticket < records[j].ticket)
    && (forall i :: 0 <= i < |records| ==> records[i].ticket < bound)
  }

  ghost predicate RunOk(w: World, r: RunId) {
    && (r in w.rows || r in w.dirs ==> r in w.used)
    && (r in w.contracts ==> r in w.dirs)
    && (r in w.persisted ==> r in w.used && Increasing(w.persisted[r], w.tickets))
    && (r in w.rows ==>
          && r in w.persisted && w.rows[r] == w.persisted[r]
          && (r in w.dirs ==> r in w.contracts && AtMostOneAhead(w.contracts[r], w.rows[r])))
  }

  predicate AtMostOneAhead(file: seq<Record>, stored: seq<Record>) {
    file == stored || (|file| == |stored| + 1 && file[..|stored|] == stored)
  }

  ghost predicate ExecuteOk(w: World, pc: Pc)
    requires pc.Executing?
  {
    var Executing(stage, r, name, ticket, commands) := pc;
    && r in w.persisted
    && (!stage.Found? && !stage.Checked? ==> ticket < w.tickets)
    && (!stage.Found? && !stage.Checked? && !stage.Persisted? ==> Increasing(w.persisted[r], ticket))
    && match stage
       case Found | Checked | Locked => true
       case Reread => r in w.dirs ==> r in w.rows && w.rows[r] == commands
       case Ready => r in w.dirs && r in w.rows && w.rows[r] == commands
       case Ran | Rechecked => r in w.dirs && r in w.rows && commands == w.rows[r] + [Record(name, ticket)]
       case Written =>
         && r in w.dirs && r in w.rows && commands == w.rows[r] + [Record(name, ticket)]
         && r in w.contracts && w.contracts[r] == commands
       case Persisted =>
         && r in w.dirs && r in w.rows && commands == w.rows[r]
         && r in w.contracts && w.contracts[r] == commands
         && Record(name, ticket) in commands
  }

  ghost predicate DeletionOk(w: World, d: Deletion, removed: bool) {
    && d.run in w.persisted
    && (!d.locked || removed ==> d.run !in w.dirs)
  }

  ghost predicate PcOk(w: World, pc: Pc) {
    match pc
    case Idle => true
    case Preparing(r, contractWritten) =>
      && r in w.used && r in w.dirs && r !in w.rows && r !in w.persisted
      && (contractWritten ==> r in w.contracts && w.contracts[r] == [])
    case Executing(_, _, _, _, _) => ExecuteOk(w, pc)
    case RowGone(_) => false
    case DirectoryGone(_) => false
    case Scanning(_, todo, _, deletions) =>
      && Distinct(todo) && (forall r <- todo :: r in w.persisted)
      && (forall r <- todo :: Deletion(r, true) !in deletions)
      && (forall d <- deletions :: DeletionOk(w, d, false))
    case Removing(_, deletions, next) =>
      && next <= |deletions|
      && (forall i :: 0 <= i < |deletions| ==> DeletionOk(w, deletions[i], i < next))
    case Cleaned(_, deletions) =>
      forall d <- deletions :: DeletionOk(w, d, true)
  }

  predicate Has(w: World, p: Proc, r: RunId) { r in w.locks && w.locks[r] == p }

  ghost predicate LocksOk(s: State, p: Proc, r: RunId) { Holds(s.Pc(p), r) <==> Has(s.world, p, r) }

  /** A directory still being prepared belongs to one process. */
  ghost predicate Apart(s: State, p: Proc, q: Proc) {
    s.Pc(p).Preparing? && s.Pc(q).Preparing? && s.Pc(p).run == s.Pc(q).run ==> p == q
  }

  ghost predicate ProcOk(s: State, p: Proc) { PcOk(s.world, s.Pc(p)) }

  ghost predicate Inv(s: State) {
    && (forall r :: RunOk(s.world, r))
    && (forall p :: ProcOk(s, p))
    && (forall p, r :: LocksOk(s, p, r))
    && (forall p, q :: Apart(s, p, q))
  }

  // ----- preservation -----

  /** What a step must show: the runs stay well-formed, every other process can live with the new world, the
      locks changed hands as the counter says, and a directory being prepared is taken by nobody else. */
  ghost predicate GoodStep(s: State, p: Proc, to: Step) {
    && (forall r :: RunOk(to.world, r))
    && PcOk(to.world, to.pc)
    && (forall q :: ProcOk(s, q) ==> q == p || PcOk(to.world, s.Pc(q)))
    && (forall r :: Holds(to.pc, r) <==> Has(to.world, p, r))
    && (forall q, r :: Has(to.world, q, r) <==> if q == p then Has(to.world, q, r) else Has(s.world, q, r))
    && (to.pc.Preparing? ==> forall q :: ProcOk(s, q) ==> q == p || !s.Pc(q).Preparing? || s.Pc(q).run != to.pc.run)
  }

  lemma GoodStepKeepsInv(s: State, p: Proc, to: Step)
    requires Inv(s) && GoodStep(s, p, to)
    ensures Inv(s.Moved(p, to))
  {
    var t := s.Moved(p, to);
    forall q ensures t.Pc(q) == if q == p then to.pc else s.Pc(q) {}
    forall q ensures ProcOk(t, q) { assert ProcOk(s, q); }
    forall q, r ensures LocksOk(t, q, r) { assert LocksOk(s, q, r) && Has(t.world, q, r) == Has(to.world, q, r); }
    forall a, b ensures Apart(t, a, b) { assert Apart(s, a, b) && ProcOk(s, a) && ProcOk(s, b); }
  }

  /** A step that leaves the world alone. */
  lemma MoveIsGood(s: State, p: Proc, pc: Pc)
    requires Inv(s) && !pc.Preparing? && PcOk(s.world, pc)
    requires forall r :: Holds(pc, r) <==> Holds(s.Pc(p), r)
    ensures GoodStep(s, p, Step(s.world, pc))
  {
    forall r ensures Holds(pc, r) <==> Has(s.world, p, r) { assert LocksOk(s, p, r); }
  }

  lemma StopIsGood(s: State, p: Proc, tidy: bool)
    requires Inv(s)
    ensures GoodStep(s, p, Stopped(s.world, p, s.Pc(p), tidy))
  {
    var pc := s.Pc(p);
    var w := Stopped(s.world, p, pc, tidy).world;
    assert ProcOk(s, p);
    forall r ensures RunOk(w, r) { assert RunOk(s.world, r); }
    forall q | ProcOk(s, q) ensures q == p || PcOk(w, s.Pc(q)) {
      assert Apart(s, p, q);
    }
  }

  lemma StayIsGood(s: State, p: Proc)
    requires Inv(s)
    ensures GoodStep(s, p, Step(s.world, s.Pc(p)))
  {
    assert ProcOk(s, p);
    forall r ensures Holds(s.Pc(p), r) <==> Has(s.world, p, r) { assert LocksOk(s, p, r); }
    forall q | ProcOk(s, q) && s.Pc(p).Preparing? ensures q == p || !s.Pc(q).Preparing? || s.Pc(q).run != s.Pc(p).run {
      assert Apart(s, p, q);
    }
  }

  lemma MakeRunDirIsGood(s: State, e: Event)
    requires Inv(s) && e.MakeRunDir?
    ensures GoodStep(s, e.p, StepOf(s.world, s.Pc(e.p), e))
  {
    var w := StepOf(s.world, s.Pc(e.p), e).world;
    StayIsGood(s, e.p);
    assert RunOk(s.world, e.run);
    forall r ensures RunOk(w, r) { assert RunOk(s.world, r); }
    forall q, r ensures Has(w, q, r) <==> Has(s.world, q, r) {}
    forall r ensures Holds(s.Pc(e.p), r) <==> Has(w, e.p, r) { assert LocksOk(s, e.p, r); }
  }

  lemma PrepareIsGood(s: State, p: Proc)
    requires Inv(s) && s.Pc(p).Preparing?
    ensures GoodStep(s, p, AdvancePrepare(s.world, s.Pc(p)))
  {
    var run := s.Pc(p).run;
    var to := AdvancePrepare(s.world, s.Pc(p));
    assert ProcOk(s, p) && RunOk(s.world, run);
    StayIsGood(s, p);
    forall r ensures RunOk(to.world, r) { assert RunOk(s.world, r); }
    forall q, r ensures Has(to.world, q, r) <==> Has(s.world, q, r) {}
    forall q | ProcOk(s, q) ensures q == p || PcOk(to.world, s.Pc(q)) { assert Apart(s, p, q); }
    forall r ensures Holds(to.pc, r) <==> Has(to.world, p, r) { assert LocksOk(s, p, r); }
  }

  /** Taking a free lock. */
  lemma LockIsGood(s: State, p: Proc, run: RunId, tickets: nat, pc: Pc)
    requires Inv(s) && run !in s.world.locks && s.world.tickets <= tickets && !pc.Preparing?
    requires PcOk(s.world.(tickets := tickets), pc)
    requires forall r :: Holds(pc, r) <==> Holds(s.Pc(p), r) || r == run
    ensures GoodStep(s, p, Step(s.world.(locks := s.world.locks[run := p], tickets := tickets), pc))
  {
    var w := s.world.(locks := s.world.locks[run := p], tickets := tickets);
    forall r ensures RunOk(w, r) { assert RunOk(s.world, r); }
    forall r ensures Holds(pc, r) <==> Has(w, p, r) { assert LocksOk(s, p, r); }
    forall q, r | q != p ensures Has(w, q, r) <==> Has(s.world, q, r) { assert LocksOk(s, q, r); }
    forall q | ProcOk(s, q) ensures q == p || PcOk(w, s.Pc(q)) {}
  }

  lemma WriteContractIsGood(s: State, p: Proc)
    requires Inv(s) && s.Pc(p).Executing? && s.Pc(p).stage.Rechecked?
    ensures GoodStep(s, p, AdvanceExecute(s.world, p, s.Pc(p)))
  {
    var to := AdvanceExecute(s.world, p, s.Pc(p));
    assert ProcOk(s, p) && RunOk(s.world, s.Pc(p).run) && LocksOk(s, p, s.Pc(p).run);
    forall r ensures RunOk(to.world, r) { assert RunOk(s.world, r); }
    forall q, r ensures Has(to.world, q, r) <==> Has(s.world, q, r) {}
    forall q | ProcOk(s, q) ensures q == p || PcOk(to.world, s.Pc(q)) { assert LocksOk(s, q, s.Pc(p).run); }
    forall r ensures Holds(to.pc, r) <==> Has(to.world, p, r) { assert LocksOk(s, p, r); }
  }

  lemma PersistIsGood(s: State, p: Proc)
    requires Inv(s) && s.Pc(p).Executing? && s.Pc(p).stage.Written?
    ensures GoodStep(s, p, AdvanceExecute(s.world, p, s.Pc(p)))
  {
    var to := AdvanceExecute(s.world, p, s.Pc(p));
    assert ProcOk(s, p) && RunOk(s.world, s.Pc(p).run) && LocksOk(s, p, s.Pc(p).run);
    forall r ensures RunOk(to.world, r) { assert RunOk(s.world, r); }
    forall q, r ensures Has(to.world, q, r) <==> Has(s.world, q, r) {}
    forall q | ProcOk(s, q) ensures q == p || PcOk(to.world, s.Pc(q)) { assert LocksOk(s, q, s.Pc(p).run); }
    forall r ensures Holds(to.pc, r) <==> Has(to.world, p, r) { assert LocksOk(s, p, r); }
  }

  lemma ExecuteIsGood(s: State, p: Proc)
    requires Inv(s) && s.Pc(p).Executing?
    ensures GoodStep(s, p, AdvanceExecute(s.world, p, s.Pc(p)))
  {
    var pc := s.Pc(p);
    assert ProcOk(s, p) && RunOk(s.world, pc.run);
    StopIsGood(s, p, false);
    match pc.stage
    case Checked =>
      if pc.run !in s.world.locks {
        LockIsGood(s, p, pc.run, s.world.tickets + 1, pc.(stage := Locked, ticket := s.world.tickets));
      }
    case Rechecked => WriteContractIsGood(s, p);
    case Written => PersistIsGood(s, p);
    case Persisted =>
    case _ =>
      var pc' := AdvanceExecute(s.world, p, pc).pc;
      if pc'.Executing? { MoveIsGood(s, p, pc'); }
  }

  lemma ScanMovesOn(w: World, pc: Pc, more: seq<Deletion>)
    requires pc.Scanning? && pc.todo != [] && PcOk(w, pc)
    requires more == [] || (exists locked ::
        more == [Deletion(pc.todo[0], locked)] && (locked || pc.todo[0] !in w.dirs))
    ensures PcOk(w, Scanning(pc.kept, pc.todo[1..], false, pc.deletions + more))
  {
  }

  lemma ScanIsGood(s: State, p: Proc)
    requires Inv(s) && s.Pc(p).Scanning?
    ensures GoodStep(s, p, AdvanceScan(s.world, p, s.Pc(p)))
  {
    var pc := s.Pc(p);
    var to := AdvanceScan(s.world, p, pc);
    assert ProcOk(s, p);
    if pc.todo == [] || (!pc.probed && pc.todo[0] in s.world.dirs) {
      MoveIsGood(s, p, to.pc);
    } else if !pc.probed {
      ScanMovesOn(s.world, pc, [Deletion(pc.todo[0], false)]);
      MoveIsGood(s, p, to.pc);
    } else if pc.todo[0] in s.world.locks {
      ScanMovesOn(s.world, pc, []);
      assert pc.deletions + [] == pc.deletions;
      MoveIsGood(s, p, to.pc);
    } else {
      ScanMovesOn(s.world, pc, [Deletion(pc.todo[0], true)]);
      assert s.world.(tickets := s.world.tickets) == s.world;
      LockIsGood(s, p, pc.todo[0], s.world.tickets, to.pc);
    }
  }

  /** Nobody else works on a run that a clean is about to remove. */
  lemma NobodyElseIsOn(s: State, p: Proc, d: Deletion, q: Proc)
    requires Inv(s) && s.Pc(p).Removing? && d in s.Pc(p).deletions && q != p
    ensures !Protected(s.Pc(q), d.run) && !(s.Pc(q).Preparing? && s.Pc(q).run == d.run)
  {
    var i :| 0 <= i < |s.Pc(p).deletions| && s.Pc(p).deletions[i] == d;
    assert ProcOk(s, p) && ProcOk(s, q) && DeletionOk(s.world, d, i < s.Pc(p).next);
    assert LocksOk(s, p, d.run) && LocksOk(s, q, d.run);
  }

  lemma RemoveDirIsGood(s: State, p: Proc)
    requires Inv(s) && s.Pc(p).Removing? && s.Pc(p).next < |s.Pc(p).deletions|
    ensures GoodStep(s, p, AdvanceRemove(s.world, s.Pc(p)))
  {
    var pc := s.Pc(p);
    var to := AdvanceRemove(s.world, pc);
    assert ProcOk(s, p);
    forall i | 0 <= i < |pc.deletions| ensures DeletionOk(to.world, pc.deletions[i], i < to.pc.next) {
      assert DeletionOk(s.world, pc.deletions[i], i < pc.next);
    }
    forall r ensures RunOk(to.world, r) { assert RunOk(s.world, r); }
    forall q, r ensures Has(to.world, q, r) <==> Has(s.world, q, r) {}
    forall q | ProcOk(s, q) ensures q == p || PcOk(to.world, s.Pc(q)) {
      if q != p { NobodyElseIsOn(s, p, pc.deletions[pc.next], q); }
    }
    forall r ensures Holds(to.pc, r) <==> Has(to.world, p, r) { assert LocksOk(s, p, r); }
  }

  lemma DeleteRowsIsGood(s: State, p: Proc)
    requires Inv(s) && s.Pc(p).Removing? && s.Pc(p).next == |s.Pc(p).deletions|
    ensures GoodStep(s, p, AdvanceRemove(s.world, s.Pc(p)))
  {
    var pc := s.Pc(p);
    var to := AdvanceRemove(s.world, pc);
    assert ProcOk(s, p);
    forall d | d in pc.deletions ensures DeletionOk(s.world, d, true) {}
    forall r ensures RunOk(to.world, r) { assert RunOk(s.world, r); }
    forall q, r ensures Has(to.world, q, r) <==> Has(s.world, q, r) {}
    forall r ensures Holds(to.pc, r) <==> Has(to.world, p, r) { assert LocksOk(s, p, r); }
  }

  lemma AdvanceIsGood(s: State, p: Proc)
    requires Inv(s)
    ensures GoodStep(s, p, Advance(s.world, p, s.Pc(p)))
  {
    assert ProcOk(s, p);
    match s.Pc(p)
    case Idle => StayIsGood(s, p);
    case Preparing(_, _) => PrepareIsGood(s, p);
    case Executing(_, _, _, _, _) => ExecuteIsGood(s, p);
    case Scanning(_, _, _, _) => ScanIsGood(s, p);
    case Removing(_, deletions, next) =>
      if next < |deletions| { RemoveDirIsGood(s, p); } else { DeleteRowsIsGood(s, p); }
    case Cleaned(_, _) => StopIsGood(s, p, false);
  }

  /** Every step of every process keeps the invariant. */
  lemma ApplyKeepsInv(s: State, e: Event)
    requires Inv(s)
    ensures Inv(Apply(s, e))
  {
    var p, pc := e.p, s.Pc(e.p);
    var to := StepOf(s.world, pc, e);
    StayIsGood(s, p);
    match e {
      case MakeRunDir(_, _) => MakeRunDirIsGood(s, e);
      case StartExecute(_, run, _) =>
        assert RunOk(s.world, run);
        if to.pc != pc { MoveIsGood(s, p, to.pc); }
      case StartClean(_, candidates) =>
        forall r | r in candidates && r in s.world.rows ensures r in s.world.persisted { assert RunOk(s.world, r); }
        if to.pc != pc { MoveIsGood(s, p, to.pc); }
      case Stop(_, tidy) => StopIsGood(s, p, tidy);
      case Go(_) => AdvanceIsGood(s, p);
    }
    GoodStepKeepsInv(s, p, to);
  }

  lemma {:induction false} RunKeepsInv(s: State, events: seq<Event>)
    requires Inv(s)
    ensures Inv(Run(s, events))
    decreases |events|
  {
    if events != [] {
      ApplyKeepsInv(s, events[0]);
      RunKeepsInv(Apply(s, events[0]), events[1..]);
    }
  }

  lemma InitialInv()
    ensures Inv(Initial)
  {
  }

  lemma ReachableInv(events: seq<Event>)
    ensures Inv(Run(Initial, events))
  {
    InitialInv();
    RunKeepsInv(Initial, events);
  }

  // ----- the theorems -----

  /** From an execute's check under the lock until it lets go of the lock, its directory, its row and its
      contract file are there, it holds the lock, and its list is the stored one, with its own record at the
      end from the command's run on. */
  ghost predicate WorksOnItsRun(s: State, p: Proc, run: RunId)
    requires s.Pc(p).Executing?
  {
    var Executing(stage, _, name, ticket, commands) := s.Pc(p);
    && run in s.world.dirs && run in s.world.rows && run in s.world.contracts && Has(s.world, p, run)
    && (stage.Ready? || stage.Persisted? ==> s.world.rows[run] == commands)
    && (stage.Ran? || stage.Rechecked? || stage.Written? ==> commands == s.world.rows[run] + [Record(name, ticket)])
  }

  lemma ProtectedRunIsThere(events: seq<Event>, p: Proc, run: RunId)
    requires Protected(Run(Initial, events).Pc(p), run)
    ensures WorksOnItsRun(Run(Initial, events), p, run)
  {
    var s := Run(Initial, events);
    ReachableInv(events);
    assert ProcOk(s, p) && RunOk(s.world, run) && LocksOk(s, p, run);
  }

  /** No execute ever finds its row or its directory gone when it writes its result. */
  lemma ResultAlwaysHasAPlace(events: seq<Event>, p: Proc)
    ensures !Run(Initial, events).Pc(p).RowGone? && !Run(Initial, events).Pc(p).DirectoryGone?
  {
    ReachableInv(events);
    assert ProcOk(Run(Initial, events), p);
  }

  predicate SameRun(v: World, w: World, run: RunId) {
    && (run in v.dirs <==> run in w.dirs)
    && (run in v.rows <==> run in w.rows) && (run in v.rows ==> v.rows[run] == w.rows[run])
    && (run in v.contracts <==> run in w.contracts) && (run in v.contracts ==> v.contracts[run] == w.contracts[run])
  }

  // ----- what an event touches -----

  function Runs(deletions: seq<Deletion>): set<RunId> { set d <- deletions :: d.run }

  /** The runs a process is at work on: the one it prepares or executes, or those it is removing. */
  function Touched(pc: Pc): set<RunId> {
    match pc
    case Preparing(r, _) => {r}
    case Executing(_, r, _, _, _) => {r}
    case Removing(_, deletions, _) => Runs(deletions)
    case _ => {}
  }

  /** Directory, row, contract file and history of a run are the same. */
  ghost predicate SameHistory(v: World, w: World, r: RunId) {
    && SameRun(v, w, r) && (r in v.used <==> r in w.used)
    && (r in v.persisted <==> r in w.persisted) && (r in v.persisted ==> v.persisted[r] == w.persisted[r])
  }

  lemma ExecuteTouchesItsRun(w: World, p: Proc, pc: Pc, r: RunId)
    requires pc.Executing? && r != pc.run
    ensures SameHistory(w, AdvanceExecute(w, p, pc).world, r)
  {
  }

  /** Whatever happens in one process, it changes nothing of a run it is not at work on. */
  lemma OnlyOwnRunsChange(s: State, e: Event, r: RunId)
    requires r !in Touched(s.Pc(e.p)) && (e.MakeRunDir? ==> e.run != r)
    ensures SameHistory(s.world, Apply(s, e).world, r)
  {
    if e.Go? && s.Pc(e.p).Executing? { ExecuteTouchesItsRun(s.world, e.p, s.Pc(e.p), r); }
  }

  /** The lock a process asks for next. */
  predicate Wants(pc: Pc, r: RunId) {
    match pc
    case Executing(stage, run, _, _, _) => stage.Checked? && run == r
    case Scanning(_, todo, probed, _) => probed && todo != [] && todo[0] == r
    case _ => false
  }

  /** A lock stays where it is, or it was free and is now held by p, or it was p's and is now free. */
  predicate HandOver(v: World, w: World, p: Proc, r: RunId) {
    if r in v.locks then (if r in w.locks then v.locks[r] == w.locks[r] else v.locks[r] == p)
    else r in w.locks ==> w.locks[r] == p
  }

  lemma AdvanceHandsOver(w: World, p: Proc, pc: Pc, r: RunId)
    ensures
      var step := Advance(w, p, pc);
      && HandOver(w, step.world, p, r) && (r !in w.locks && r in step.world.locks ==> Wants(pc, r))
      && (r in w.locks && r !in step.world.locks ==> step.pc.Idle?)
  {
    match pc
    case Executing(_, _, _, _, _) =>
    case _ =>
  }

  /** A lock is taken only while it is free, by a process that is about to work on the run, and let go of only by its
      holder, when it ends. */
  lemma OnlyOwnLocksChange(s: State, e: Event, r: RunId)
    ensures
      var w := Apply(s, e).world;
      && HandOver(s.world, w, e.p, r) && (r !in s.world.locks && r in w.locks ==> Wants(s.Pc(e.p), r))
      && (r in s.world.locks && r !in w.locks ==> Apply(s, e).Pc(e.p).Idle?)
  {
    if e.Go? { AdvanceHandsOver(s.world, e.p, s.Pc(e.p), r); }
  }

  /** A row goes only by a clean that has listed its run, when all the listed directories are gone; a directory goes
      only by such a clean, or by the process that is still preparing it. */
  lemma OnlyListedRunsGo(events: seq<Event>, e: Event, r: RunId)
    ensures
      var s := Run(Initial, events);
      var w, pc := Apply(s, e).world, s.Pc(e.p);
      && (r in s.world.rows && r !in w.rows ==>
            pc.Removing? && r in Runs(pc.deletions) && forall d <- Runs(pc.deletions) :: d !in s.world.dirs)
      && (r in s.world.dirs && r !in w.dirs ==>
            (pc.Removing? && r in Runs(pc.deletions)) || (pc.Preparing? && pc.run == r && r !in s.world.rows))
  {
    var s := Run(Initial, events);
    ReachableInv(events);
    assert ProcOk(s, e.p);
  }

  /** A prepared run has an empty history: its row, its directory and its contract file are there. */
  lemma PrepareMakesARun(s: State, p: Proc, run: RunId)
    requires s.Pc(p).Idle? && run !in s.world.used
    ensures
      var t := Run(s, [MakeRunDir(p, run), Go(p), Go(p)]);
      && t.Pc(p).Idle?
      && t.world == s.world.(dirs := s.world.dirs + {run}, used := s.world.used + {run},
           contracts := s.world.contracts[run := []], rows := s.world.rows[run := []],
           persisted := s.world.persisted[run := []])
  {
    var events := [MakeRunDir(p, run), Go(p), Go(p)];
    var one := Apply(s, events[0]);
    var two := Apply(one, Go(p));
    assert events[1..] == [Go(p), Go(p)] && [Go(p), Go(p)][1..] == [Go(p)] && [Go(p)][1..] == [];
    assert Run(two, [Go(p)]) == Run(Apply(two, Go(p)), []);
    assert Run(one, events[1..]) == Run(two, [Go(p)]);
  }

  lemma AdvanceLeavesAlone(s: State, p: Proc, run: RunId, q: Proc)
    requires Inv(s) && Protected(s.Pc(p), run) && q != p
    ensures SameRun(s.world, Advance(s.world, q, s.Pc(q)).world, run)
  {
    assert ProcOk(s, p) && ProcOk(s, q) && LocksOk(s, p, run) && LocksOk(s, q, run);
    match s.Pc(q)
    case Removing(_, deletions, _) =>
      forall d | d in deletions ensures d.run != run { NobodyElseIsOn(s, q, d, p); }
    case _ =>
  }

  /** What another process does leaves a protected run's directory, row and contract file as they are. */
  lemma ProtectedRunIsLeftAlone(events: seq<Event>, p: Proc, run: RunId, e: Event)
    requires Protected(Run(Initial, events).Pc(p), run) && e.p != p
    ensures
      var s := Run(Initial, events);
      SameRun(s.world, Apply(s, e).world, run) && Apply(s, e).Pc(p) == s.Pc(p)
  {
    var s := Run(Initial, events);
    ReachableInv(events);
    assert ProcOk(s, p) && ProcOk(s, e.p) && RunOk(s.world, run);
    if e.Go? { AdvanceLeavesAlone(s, p, run, e.p); }
  }

  /** A deletion that Clean lists without a lock is of a run whose directory stays missing, so no execute
      is past its check on it. */
  lemma LockFreeDeletionIsOfADeadRun(events: seq<Event>, p: Proc, run: RunId, q: Proc)
    requires
      var pc := Run(Initial, events).Pc(p);
      (pc.Scanning? || pc.Removing? || pc.Cleaned?) && Deletion(run, false) in pc.deletions
    ensures run !in Run(Initial, events).world.dirs && !Protected(Run(Initial, events).Pc(q), run)
  {
    ReachableInv(events);
    assert ProcOk(Run(Initial, events), p) && ProcOk(Run(Initial, events), q);
  }

  /** The stored list of a live run is exactly what its executes persisted, in the order they took the lock;
      its contract file holds that list, or that list and one record that was never persisted. */
  lemma StoredListIsThePersistedOne(events: seq<Event>, run: RunId)
    requires run in Run(Initial, events).world.rows
    ensures
      var w := Run(Initial, events).world;
      && run in w.persisted && w.rows[run] == w.persisted[run]
      && (forall i, j :: 0 <= i < j < |w.rows[run]| ==> w.rows[run][i].ticket < w.rows[run][j].ticket)
      && (run in w.dirs ==> run in w.contracts && AtMostOneAhead(w.contracts[run], w.rows[run]))
  {
    ReachableInv(events);
    assert RunOk(Run(Initial, events).world, run);
  }

  /** Nothing persisted is taken back, and a directory once gone, or a row once gone with it, stays gone. */
  ghost predicate OnlyGrows(v: World, w: World) {
    && (forall r :: r in v.persisted ==> r in w.persisted && v.persisted[r] <= w.persisted[r])
    && (forall r :: r in v.persisted && r !in v.dirs ==> r !in w.dirs && (r !in v.rows ==> r !in w.rows))
    && v.tickets <= w.tickets
  }

  lemma ApplyOnlyGrows(s: State, e: Event)
    requires Inv(s)
    ensures OnlyGrows(s.world, Apply(s, e).world)
  {
    assert ProcOk(s, e.p);
    forall r | r in s.world.persisted ensures r in s.world.used { assert RunOk(s.world, r); }
  }

  lemma {:induction false} RunOnlyGrows(s: State, events: seq<Event>)
    requires Inv(s)
    ensures OnlyGrows(s.world, Run(s, events).world)
    decreases |events|
  {
    if events != [] {
      var t := Apply(s, events[0]);
      ApplyOnlyGrows(s, events[0]);
      ApplyKeepsInv(s, events[0]);
      RunOnlyGrows(t, events[1..]);
      forall r | r in s.world.persisted
        ensures s.world.persisted[r] <= t.world.persisted[r] <= Run(s, events).world.persisted[r] {}
    }
  }

  /** Once an execute has persisted its record, the record stays in the row for as long as the row exists. */
  lemma PersistedRecordStays(events: seq<Event>, p: Proc, more: seq<Event>)
    requires Run(Initial, events).Pc(p).Executing? && Run(Initial, events).Pc(p).stage.Persisted?
    ensures
      var pc := Run(Initial, events).Pc(p);
      var w := Run(Run(Initial, events), more).world;
      pc.run in w.rows ==> Record(pc.name, pc.ticket) in w.rows[pc.run]
  {
    var s := Run(Initial, events);
    var t := Run(s, more);
    ReachableInv(events);
    RunKeepsInv(s, more);
    RunOnlyGrows(s, more);
    assert ProcOk(s, p) && RunOk(s.world, s.Pc(p).run) && RunOk(t.world, s.Pc(p).run);
  }
}
