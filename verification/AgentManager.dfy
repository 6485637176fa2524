/** `Execute` and `Clean` written out as the source has them: one process takes their steps in order, while
    any other processes take any steps of their own in between. */
module AgentManager {
  import opened AgentRuns

  datatype ExecuteError = UnknownRun | StorageMissing | RunLocked | CommandFailed

  datatype ExecuteResult = Executed(record: Record) | Failed(error: ExecuteError)

  /** Whether an execute has got past its check under the lock. */
  datatype LockResult = Admitted(ticket: nat) | Refused(error: ExecuteError)

  datatype CleanResult = CleanResult(deleted: nat, kept: nat)

  /** What the other processes do before each of a process's own steps. */
  type Schedule = nat -> seq<Event>

  function Others(p: Proc, events: seq<Event>): (r: seq<Event>)
    ensures forall e <- r :: e.p != p
  {
    if events == [] then [] else (if events[0].p == p then [] else [events[0]]) + Others(p, events[1..])
  }

  lemma {:induction false} RunConcat(s: State, first: seq<Event>, second: seq<Event>)
    ensures Run(s, first + second) == Run(Run(s, first), second)
    decreases |first|
  {
    if first == [] {
      assert first + second == second;
    } else {
      assert (first + second)[1..] == first[1..] + second;
      RunConcat(Apply(s, first[0]), first[1..], second);
    }
  }

  lemma {:induction false} OthersKeepPc(s: State, p: Proc, events: seq<Event>)
    requires forall e <- events :: e.p != p
    ensures Run(s, events).Pc(p) == s.Pc(p)
    decreases |events|
  {
    if events != [] {
      assert events[0] in events;
      OthersKeepPc(Apply(s, events[0]), p, events[1..]);
    }
  }

  /** The listing of the run rows, in whatever order. */
  method ListRuns(w: World) returns (ids: seq<RunId>)
    ensures Distinct(ids) && (forall r :: r in ids <==> r in w.rows) && |ids| == |w.rows|
  {
    ids := [];
    var left := w.rows.Keys;
    while left != {}
      invariant Distinct(ids) && left <= w.rows.Keys && |ids| + |left| == |w.rows.Keys|
      invariant forall r :: r in ids <==> r in w.rows.Keys - left
    {
      var r :| r in left;
      ids, left := ids + [r], left - {r};
    }
    assert w.rows.Keys - left == w.rows.Keys;
  }

  function After(stage: Stage): Stage {
    match stage
    case Found => Checked
    case Checked => Locked
    case Locked => Reread
    case Reread => Ready
    case Ready => Ran
    case Ran => Rechecked
    case Rechecked => Written
    case Written => Persisted
    case Persisted => Persisted
  }

  predicate NextOrEnd(pc: Pc, pc': Pc, tickets: nat)
    requires pc.Executing?
  {
    if pc'.Executing? then
      && pc'.stage == After(pc.stage) && pc'.run == pc.run && pc'.name == pc.name
      && (if pc.stage.Checked? then pc'.ticket >= tickets else pc'.ticket == pc.ticket)
    else pc'.Idle? && !pc.stage.Ready? && !pc.stage.Rechecked? && !pc.stage.Written?
  }

  lemma ExecuteAdvances(w: World, p: Proc, pc: Pc)
    requires pc.Executing? && !pc.stage.Persisted?
    ensures
      var pc' := Advance(w, p, pc).pc;
      NextOrEnd(pc, pc', w.tickets) || pc'.RowGone? || pc'.DirectoryGone?
  {
  }

  /** A cleaning process's tally: what it lists for deletion and what it keeps are all the listed runs. */
  ghost predicate Accounts(pc: Pc, listed: set<RunId>, expired: RunId -> bool)
    requires pc.Scanning?
  {
    && pc.kept + |pc.todo| + |pc.deletions| == |listed|
    && Distinct(pc.todo) && (forall r <- pc.todo :: r in listed && expired(r) && r !in Runs(pc.deletions))
    && (forall r <- Runs(pc.deletions) :: r in listed && expired(r)) && |Runs(pc.deletions)| == |pc.deletions|
  }

  lemma ScanAccounts(w: World, p: Proc, pc: Pc, listed: set<RunId>, expired: RunId -> bool)
    requires pc.Scanning? && pc.todo != [] && Accounts(pc, listed, expired)
    ensures
      var pc' := Advance(w, p, pc).pc;
      && pc'.Scanning? && Accounts(pc', listed, expired)
      && (|pc'.todo| < |pc.todo| || (pc'.todo == pc.todo && pc'.probed && !pc.probed))
  {
    var pc' := Advance(w, p, pc).pc;
    var r, rest := pc.todo[0], pc.todo[1..];
    assert pc.todo == [r] + rest;
    if pc'.deletions != pc.deletions {
      var d := pc'.deletions[|pc.deletions|];
      assert Runs(pc'.deletions) == Runs(pc.deletions) + {r} by {
        assert pc'.deletions == pc.deletions + [d] && d.run == r;
      }
    }
  }

  /** A run that an execute can take: it has its row and its directory, and its lock is free. */
  predicate Free(w: World, run: RunId) { run in w.rows && run in w.dirs && run !in w.locks }

  /** No other process does anything. */
  ghost predicate Quiet(p: Proc, others: Schedule) { forall i :: Others(p, others(i)) == [] }

  /** What an execute saw that ended it before its command ran. */
  predicate Saw(w: World, run: RunId, error: ExecuteError) {
    match error
    case UnknownRun => run !in w.rows
    case StorageMissing => run !in w.dirs
    case RunLocked => run in w.locks
    case CommandFailed => false
  }

  /** What ends an execute at each stage. */
  function Reason(stage: Stage): ExecuteError {
    match stage
    case Checked => RunLocked
    case Locked => UnknownRun
    case _ => StorageMissing
  }

  predicate Early(stage: Stage) { stage.Found? || stage.Checked? || stage.Locked? || stage.Reread? }

  lemma EndedForAReason(w: World, p: Proc, pc: Pc)
    requires pc.Executing? && Early(pc.stage)
    ensures
      var step := Advance(w, p, pc);
      if Saw(w, pc.run, Reason(pc.stage)) then step.pc.Idle? else
        step.pc.Executing? && step.world.rows == w.rows && step.world.dirs == w.dirs
        && (pc.stage.Found? ==> step.world == w)
  {
  }

  /** Between two points of the trace, some process held the run's lock. */
  ghost predicate HeldDuring(run: RunId, from: seq<Event>, to: seq<Event>) {
    exists at {:trigger Run(Initial, at)} :: from <= at <= to && run in Run(Initial, at).world.locks
  }

  lemma HeldLater(run: RunId, from: seq<Event>, to: seq<Event>, later: seq<Event>)
    requires HeldDuring(run, from, to) && to <= later
    ensures HeldDuring(run, from, later)
  {
    var at :| from <= at <= to && run in Run(Initial, at).world.locks;
    assert from <= at <= later;
  }

  /** Listed runs that are neither to be looked at nor to be deleted have not expired, or their lock was held. */
  ghost predicate Unlisted(pc: Pc, listed: set<RunId>, expired: RunId -> bool, from: seq<Event>, to: seq<Event>)
    requires pc.Scanning?
  {
    forall r <- listed - Runs(pc.deletions) :: r in pc.todo || !expired(r) || HeldDuring(r, from, to)
  }

  /** A run that the scan passes over without listing it has its lock held. */
  lemma PassedOver(w: World, p: Proc, pc: Pc, r: RunId)
    requires pc.Scanning? && pc.todo != []
    ensures
      var pc' := Advance(w, p, pc).pc;
      && pc'.Scanning? && (r in Runs(pc.deletions) ==> r in Runs(pc'.deletions))
      && (r in pc.todo ==> r in pc'.todo || r in Runs(pc'.deletions) || r in w.locks)
  {
    var pc' := Advance(w, p, pc).pc;
    assert pc.todo == [pc.todo[0]] + pc.todo[1..];
    if pc'.deletions != pc.deletions {
      var d := pc'.deletions[|pc.deletions|];
      assert d in pc'.deletions && d.run == pc.todo[0] && pc'.deletions == pc.deletions + [d];
    }
  }

  lemma OneMoreUnlisted(before: World, p: Proc, pc: Pc, listed: set<RunId>, expired: RunId -> bool, from: seq<Event>,
                        earlier: seq<Event>, at: seq<Event>, to: seq<Event>)
    requires pc.Scanning? && pc.todo != [] && Unlisted(pc, listed, expired, from, earlier)
    requires from <= earlier <= at <= to && Run(Initial, at).world == before
    ensures Advance(before, p, pc).pc.Scanning? && Unlisted(Advance(before, p, pc).pc, listed, expired, from, to)
  {
    var pc' := Advance(before, p, pc).pc;
    PassedOver(before, p, pc, pc.todo[0]);
    forall r | r in listed - Runs(pc'.deletions)
      ensures r in pc'.todo || !expired(r) || HeldDuring(r, from, to)
    {
      PassedOver(before, p, pc, r);
      if HeldDuring(r, from, earlier) { HeldLater(r, from, earlier, to); }
    }
  }

  // ----- an execute that nobody interferes with -----

  function Gos(p: Proc, n: nat): seq<Event> { if n == 0 then [] else [Go(p)] + Gos(p, n - 1) }

  /** The table, the contract file and the history once a record was added; the lock has been given back. */
  function Recorded(w: World, run: RunId, record: Record): World
    requires run in w.rows && run in w.persisted
  {
    var commands := w.rows[run] + [record];
    w.(rows := w.rows[run := commands], contracts := w.contracts[run := commands], tickets := w.tickets + 1,
       persisted := w.persisted[run := w.persisted[run] + [record]])
  }

  lemma LocksAndReads(s: State, p: Proc, run: RunId, name: string)
    requires s.Pc(p) == Executing(Found, run, name, 0, []) && Free(s.world, run)
    ensures
      var t := Run(s, Gos(p, 4));
      && t.world == s.world.(locks := s.world.locks[run := p], tickets := s.world.tickets + 1)
      && t.Pc(p) == Executing(Ready, run, name, s.world.tickets, s.world.rows[run])
  {
    var one := Apply(s, Go(p));
    var two := Apply(one, Go(p));
    var three := Apply(two, Go(p));
    assert Run(two, Gos(p, 2)) == Run(three, Gos(p, 1)) == Run(Apply(three, Go(p)), Gos(p, 0));
    assert Run(s, Gos(p, 4)) == Run(one, Gos(p, 3)) == Run(two, Gos(p, 2));
  }

  lemma RunsAndWrites(s: State, p: Proc, run: RunId, name: string, ticket: nat, commands: seq<Record>)
    requires s.Pc(p) == Executing(Ready, run, name, ticket, commands) && run in s.world.dirs && run in s.world.rows
    requires run in s.world.persisted
    ensures
      var record := Record(name, ticket);
      var t := Run(s, Gos(p, 5));
      && t.Pc(p).Idle?
      && t.world == Release(s.world.(
           rows := s.world.rows[run := commands + [record]], contracts := s.world.contracts[run := commands + [record]],
           persisted := s.world.persisted[run := s.world.persisted[run] + [record]]), p)
  {
    var one := Apply(s, Go(p));
    var two := Apply(one, Go(p));
    var three := Apply(two, Go(p));
    var four := Apply(three, Go(p));
    assert Run(three, Gos(p, 2)) == Run(four, Gos(p, 1)) == Run(Apply(four, Go(p)), Gos(p, 0));
    assert Run(s, Gos(p, 5)) == Run(one, Gos(p, 4)) == Run(two, Gos(p, 3)) == Run(three, Gos(p, 2));
  }

  lemma GoesThrough(s: State, p: Proc, run: RunId, name: string)
    requires s.Pc(p) == Executing(Found, run, name, 0, []) && Free(s.world, run) && run in s.world.persisted
    requires forall r :: !Has(s.world, p, r)
    ensures
      var t := Run(s, Gos(p, 9));
      t.Pc(p).Idle? && t.world == Recorded(s.world, run, Record(name, s.world.tickets))
  {
    GosAdd(s, p, 4, 5);
    LocksAndReads(s, p, run, name);
    var ready := Run(s, Gos(p, 4));
    RunsAndWrites(ready, p, run, name, s.world.tickets, s.world.rows[run]);
    LocksAreBack(ready.world, s.world, run, p);
  }

  /** Undisturbed, an execute of a free run adds its record to the run's list, in the row and in the contract file, and
      changes nothing else. */
  lemma ExecuteAddsItsRecord(events: seq<Event>, p: Proc, run: RunId, name: string)
    requires Run(Initial, events).Pc(p).Idle? && Free(Run(Initial, events).world, run)
    ensures
      var s := Run(Initial, events);
      var t := Run(s, [StartExecute(p, run, name)] + Gos(p, 9));
      && run in s.world.persisted && t.Pc(p).Idle?
      && t.world == Recorded(s.world, run, Record(name, s.world.tickets))
  {
    var s := Run(Initial, events);
    ReachableInv(events);
    assert RunOk(s.world, run);
    forall r ensures !Has(s.world, p, r) { assert LocksOk(s, p, r); }
    RunFirst(s, StartExecute(p, run, name), Gos(p, 9));
    GoesThrough(Apply(s, StartExecute(p, run, name)), p, run, name);
  }

  lemma RunFirst(s: State, e: Event, rest: seq<Event>)
    ensures Run(s, [e] + rest) == Run(Apply(s, e), rest)
  {
    assert ([e] + rest)[1..] == rest;
  }

  lemma {:induction false} GosAdd(s: State, p: Proc, m: nat, n: nat)
    ensures Run(s, Gos(p, m + n)) == Run(Run(s, Gos(p, m)), Gos(p, n))
    decreases m
  {
    if m > 0 { GosAdd(Apply(s, Go(p)), p, m - 1, n); }
  }

  lemma LocksAreBack(v: World, w: World, run: RunId, p: Proc)
    requires v.locks == w.locks[run := p] && run !in w.locks && forall r :: !Has(w, p, r)
    ensures Release(v, p).locks == w.locks
  {
    forall r | r in w.locks ensures w.locks[r] != p { assert !Has(w, p, r); }
  }

  // ----- what a process's own steps leave alone -----

  /** An event after a trace changes nothing of the other runs. */
  ghost predicate LeavesAlone(at: seq<Event>, e: Event, touched: set<RunId>) {
    forall r :: r !in touched ==> SameHistory(Run(Initial, at).world, Apply(Run(Initial, at), e).world, r)
  }

  /** Between two points of the trace, p's own steps change nothing of the other runs. */
  ghost predicate OwnSteps(p: Proc, from: seq<Event>, to: seq<Event>, touched: set<RunId>) {
    forall i {:trigger to[i]} :: |from| <= i < |to| && to[i].p == p ==> LeavesAlone(to[..i], to[i], touched)
  }

  lemma MoreOwnSteps(p: Proc, from: seq<Event>, middle: seq<Event>, to: seq<Event>, first: set<RunId>,
                     second: set<RunId>)
    requires from <= middle <= to && OwnSteps(p, from, middle, first) && OwnSteps(p, middle, to, second)
    ensures OwnSteps(p, from, to, first + second)
  {
    forall i | |from| <= i < |to| && to[i].p == p ensures LeavesAlone(to[..i], to[i], first + second) {
      if i < |middle| {
        assert to[..i] == middle[..i] && to[i] == middle[i];
        assert LeavesAlone(middle[..i], middle[i], first);
      } else {
        assert LeavesAlone(to[..i], to[i], second);
      }
    }
  }

  /** The steps of others, and then an event of p's. */
  lemma OneOwnStep(p: Proc, from: seq<Event>, others: seq<Event>, e: Event)
    requires e.p == p && !e.MakeRunDir? && forall o <- others :: o.p != p
    ensures OwnSteps(p, from, from + others + [e], Touched(Run(Initial, from + others).Pc(p)))
  {
    var at, to := from + others, from + others + [e];
    assert forall i :: |from| <= i < |at| ==> to[i] == others[i - |from|];
    forall i | |from| <= i < |to| && to[i].p == p
      ensures LeavesAlone(to[..i], to[i], Touched(Run(Initial, at).Pc(p)))
    {
      assert to[..i] == at && to[i] == e;
      forall r | r !in Touched(Run(Initial, at).Pc(p))
        ensures SameHistory(Run(Initial, at).world, Apply(Run(Initial, at), e).world, r)
      {
        OnlyOwnRunsChange(Run(Initial, at), e, r);
      }
    }
  }

  // ----- a clean that nobody interferes with -----

  /** A clean may remove a run whose directory is missing, or whose lock is free. */
  predicate Removable(w: World, r: RunId) { r !in w.dirs || r !in w.locks }

  function Expired(w: World, expired: RunId -> bool): set<RunId> {
    set r <- w.rows.Keys | expired(r) && Removable(w, r)
  }

  function Cleared(w: World, runs: set<RunId>): World {
    w.(rows := w.rows - runs, dirs := w.dirs - runs, contracts := w.contracts - runs)
  }

  /** Nothing has happened but that p has taken locks. */
  ghost predicate OnlyLocked(w: World, start: World, p: Proc) {
    && w == start.(locks := w.locks)
    && (forall r <- start.locks :: r in w.locks && w.locks[r] == start.locks[r])
    && (forall r <- w.locks :: r in start.locks || w.locks[r] == p)
  }

  /** Part-way through the scan: what is listed may be removed, and what was passed over may not. */
  ghost predicate QuietScan(w: World, start: World, p: Proc, pc: Pc, listed: set<RunId>, expired: RunId -> bool)
    requires pc.Scanning?
  {
    && OnlyLocked(w, start, p)
    && (forall r <- listed - Runs(pc.deletions) :: r in w.locks <==> r in start.locks)
    && (pc.probed ==> pc.todo != [] && pc.todo[0] in start.dirs)
    && (forall r <- Runs(pc.deletions) :: Removable(start, r))
    && (forall r <- listed - Runs(pc.deletions) :: r in pc.todo || !expired(r) || !Removable(start, r))
  }

  lemma QuietListed(w: World, after: World, start: World, p: Proc, pc: Pc, d: Deletion, listed: set<RunId>,
                    expired: RunId -> bool)
    requires pc.Scanning? && pc.todo != [] && QuietScan(w, start, p, pc, listed, expired)
    requires d.run == pc.todo[0] && Removable(start, d.run) && OnlyLocked(after, start, p)
    requires forall r :: r != d.run ==> (r in after.locks <==> r in w.locks)
    ensures QuietScan(after, start, p, Scanning(pc.kept, pc.todo[1..], false, pc.deletions + [d]), listed, expired)
  {
    assert pc.todo == [d.run] + pc.todo[1..];
    assert Runs(pc.deletions + [d]) == Runs(pc.deletions) + {d.run};
  }

  lemma QuietPassed(w: World, start: World, p: Proc, pc: Pc, listed: set<RunId>, expired: RunId -> bool)
    requires pc.Scanning? && pc.todo != [] && QuietScan(w, start, p, pc, listed, expired)
    requires !Removable(start, pc.todo[0])
    ensures QuietScan(w, start, p, Scanning(pc.kept + 1, pc.todo[1..], false, pc.deletions), listed, expired)
  {
    assert pc.todo == [pc.todo[0]] + pc.todo[1..];
  }

  lemma QuietScanStep(w: World, start: World, p: Proc, pc: Pc, listed: set<RunId>, expired: RunId -> bool)
    requires pc.Scanning? && pc.todo != [] && Accounts(pc, listed, expired)
    requires QuietScan(w, start, p, pc, listed, expired)
    ensures
      var step := Advance(w, p, pc);
      step.pc.Scanning? && QuietScan(step.world, start, p, step.pc, listed, expired)
  {
    var step := Advance(w, p, pc);
    var r := pc.todo[0];
    assert r in pc.todo && (r in w.locks <==> r in start.locks);
    if !pc.probed && r in w.dirs {
    } else if pc.probed && r in w.locks {
      QuietPassed(w, start, p, pc, listed, expired);
    } else {
      QuietListed(w, step.world, start, p, pc, Deletion(r, pc.probed), listed, expired);
    }
  }

  lemma QuietScanEnds(w: World, start: World, p: Proc, pc: Pc, expired: RunId -> bool)
    requires pc.Scanning? && pc.todo == [] && Accounts(pc, start.rows.Keys, expired)
    requires QuietScan(w, start, p, pc, start.rows.Keys, expired)
    ensures Runs(pc.deletions) == Expired(start, expired)
  {
  }

  function WithoutDirs(w: World, runs: set<RunId>): World {
    w.(dirs := w.dirs - runs, contracts := w.contracts - runs)
  }

  lemma OneMoreRun(deletions: seq<Deletion>, n: nat)
    requires n < |deletions|
    ensures Runs(deletions[..n + 1]) == Runs(deletions[..n]) + {deletions[n].run}
  {
    assert deletions[..n + 1] == deletions[..n] + [deletions[n]];
  }

  lemma LocksGivenBack(w: World, start: World, p: Proc, runs: set<RunId>)
    requires OnlyLocked(w, start, p) && forall r :: !Has(start, p, r)
    ensures Release(Cleared(w, runs), p) == Cleared(start, runs)
  {
    var released := Release(Cleared(w, runs), p);
    forall r | r in start.locks ensures r in released.locks && released.locks[r] == start.locks[r] {
      assert !Has(start, p, r);
    }
    assert released.locks == start.locks;
  }

  class Manager {
    var state: State
    ghost var trace: seq<Event>

    ghost predicate Valid() reads this { state == Run(Initial, trace) }

    constructor ()
      ensures Valid() && state == Initial
    {
      state, trace := Initial, [];
    }

    method Happen(events: seq<Event>)
      requires Valid()
      modifies this
      ensures Valid() && trace == old(trace) + events && state == Run(old(state), events)
    {
      RunConcat(Initial, trace, events);
      trace := trace + events;
      var i := 0;
      while i < |events|
        invariant 0 <= i <= |events|
        invariant Run(state, events[i..]) == Run(old(state), events) && trace == old(trace) + events
      {
        assert events[i..][1..] == events[i + 1..];
        state, i := Apply(state, events[i]), i + 1;
      }
    }

    /** The others' steps, then p's next one. */
    method Next(p: Proc, others: seq<Event>) returns (ghost before: World, ghost at: seq<Event>)
      requires Valid()
      modifies this
      ensures Valid() && old(trace) <= at <= trace && OnlyGrows(old(state).world, state.world)
      ensures Run(Initial, at).world == before && Run(Initial, at).Pc(p) == old(state).Pc(p)
      ensures before == Run(old(state), Others(p, others)).world && OnlyGrows(old(state).world, before)
      ensures state.world == Advance(before, p, old(state).Pc(p)).world
      ensures state.Pc(p) == Advance(before, p, old(state).Pc(p)).pc
      ensures OwnSteps(p, old(trace), trace, Touched(old(state).Pc(p)))
    {
      OneOwnStep(p, trace, Others(p, others), Go(p));
      OthersKeepPc(state, p, Others(p, others));
      ReachableInv(trace);
      RunOnlyGrows(state, Others(p, others));
      RunOnlyGrows(state, Others(p, others) + [Go(p)]);
      RunConcat(state, Others(p, others), [Go(p)]);
      Happen(Others(p, others));
      before, at := state.world, trace;
      Happen([Go(p)]);
    }

    /** An execute's step: the next stage, with the same ticket once it has one, or the end of the execute.
        The command's run and the two writes do not end it. */
    method NextStage(p: Proc, others: seq<Event>) returns (ghost before: World, ghost at: seq<Event>)
      requires Valid() && state.Pc(p).Executing? && !state.Pc(p).stage.Persisted?
      modifies this
      ensures Valid() && old(trace) <= at <= trace && before == Run(Initial, at).world
      ensures old(state).world.tickets <= state.world.tickets
      ensures NextOrEnd(old(state).Pc(p), state.Pc(p), old(state).world.tickets)
      ensures before == Run(old(state), Others(p, others)).world
      ensures Step(state.world, state.Pc(p)) == Advance(before, p, old(state).Pc(p))
    {
      before, at := Next(p, others);
      ResultAlwaysHasAPlace(trace, p);
      ExecuteAdvances(before, p, old(state).Pc(p));
    }

    /** Once its run is protected, no execute is ended by a step. */
    method NextProtectedStage(p: Proc, others: seq<Event>)
      requires Valid() && state.Pc(p).Executing? && Protected(state.Pc(p), state.Pc(p).run)
      requires !state.Pc(p).stage.Persisted?
      modifies this
      ensures Valid() && old(trace) <= trace && old(state).world.tickets <= state.world.tickets
      ensures state.Pc(p).Executing? && NextOrEnd(old(state).Pc(p), state.Pc(p), old(state).world.tickets)
    {
      ghost var pc := state.Pc(p);
      var before, at := Next(p, others);
      ResultAlwaysHasAPlace(trace, p);
      ExecuteAdvances(before, p, pc);
      ProtectedRunIsThere(at, p, pc.run);
    }

    method StartExecuting(p: Proc, run: RunId, name: string)
      requires Valid() && state.Pc(p).Idle? && run in state.world.rows
      modifies this
      ensures Valid() && old(trace) <= trace && state.world == old(state).world
      ensures state.Pc(p) == Executing(Found, run, name, 0, [])
    {
      Happen([StartExecute(p, run, name)]);
    }

    /** An error return: the locks are let go of. */
    method GiveUp(p: Proc)
      requires Valid() && !state.Pc(p).Preparing?
      modifies this
      ensures Valid() && old(trace) <= trace && state.Pc(p).Idle? && state.world == Release(old(state).world, p)
    {
      Happen([Stop(p, false)]);
    }

    /** The last step: the record is in the row when the lock is let go of. */
    method Finish(p: Proc, others: seq<Event>)
      requires Valid() && state.Pc(p).Executing? && state.Pc(p).stage.Persisted?
      modifies this
      ensures Valid() && old(trace) <= trace && state.Pc(p).Idle?
      ensures
        var pc := old(state).Pc(p);
        pc.run in state.world.rows && Record(pc.name, pc.ticket) in state.world.rows[pc.run]
    {
      OthersKeepPc(state, p, Others(p, others));
      Happen(Others(p, others));
      ReachableInv(trace);
      assert ProcOk(state, p);
      Happen([Stop(p, false)]);
    }

    /** One of the checks before the command runs: it ends the execute exactly if it sees a reason to. */
    method NextCheck(p: Proc, others: seq<Event>) returns (ok: bool, ghost at: seq<Event>)
      requires Valid() && state.Pc(p).Executing? && Early(state.Pc(p).stage)
      modifies this
      ensures Valid() && old(trace) <= at <= trace && old(state).world.tickets <= state.world.tickets
      ensures NextOrEnd(old(state).Pc(p), state.Pc(p), old(state).world.tickets) && ok == state.Pc(p).Executing?
      ensures
        var pc := old(state).Pc(p);
        && ok == !Saw(Run(Initial, at).world, pc.run, Reason(pc.stage))
        && (Others(p, others) == [] ==> Run(Initial, at).world == old(state).world)
      ensures ok && Others(p, others) == [] ==>
          && state.world.rows == old(state).world.rows && state.world.dirs == old(state).world.dirs
          && (old(state).Pc(p).stage.Found? ==> state.world == old(state).world)
    {
      ghost var pc := state.Pc(p);
      ghost var before;
      before, at := NextStage(p, others);
      EndedForAReason(before, p, pc);
      ok := state.Pc(p).Executing?;
    }

    /** From the first listing to the check under the lock.  It gives up only for what it saw at some time of the
        call. */
    method LockRun(p: Proc, run: RunId, name: string, others: Schedule)
      returns (result: LockResult, ghost at: seq<Event>)
      requires Valid() && state.Pc(p).Idle?
      modifies this
      ensures Valid() && old(trace) <= at <= trace
      ensures if result.Refused? then state.Pc(p).Idle? && Saw(Run(Initial, at).world, run, result.error) else
          && state.Pc(p).Executing? && state.Pc(p).stage.Ready? && state.Pc(p).run == run
          && state.Pc(p).name == name && state.Pc(p).ticket == result.ticket >= old(state).world.tickets
      ensures Quiet(p, others) && Free(old(state).world, run) ==> result.Admitted?
    {
      var ok;
      at := trace;
      if run !in state.world.rows { return Refused(UnknownRun), at; }
      StartExecuting(p, run, name);
      ok, at := NextCheck(p, others(0));
      if !ok { return Refused(StorageMissing), at; }
      ok, at := NextCheck(p, others(1));
      if !ok { return Refused(RunLocked), at; }
      ok, at := NextCheck(p, others(2));
      if !ok { return Refused(UnknownRun), at; }
      ok, at := NextCheck(p, others(3));
      if !ok { return Refused(StorageMissing), at; }
      return Admitted(state.Pc(p).ticket), at;
    }

    /** The command, the check after it, the contract file, the store and the unlocking: none of them can fail. */
    method RunCommand(p: Proc, others: Schedule)
      requires Valid() && state.Pc(p).Executing? && state.Pc(p).stage.Ready?
      modifies this
      ensures Valid() && old(trace) <= trace && state.Pc(p).Idle?
      ensures
        var pc := old(state).Pc(p);
        pc.run in state.world.rows && Record(pc.name, pc.ticket) in state.world.rows[pc.run]
    {
      NextProtectedStage(p, others(4));
      NextProtectedStage(p, others(5));
      NextProtectedStage(p, others(6));
      NextProtectedStage(p, others(7));
      Finish(p, others(8));
    }

    /** An executed command's record is in the row when Execute returns it, under a lock taken since the call.  Once the
        run is locked and checked, Execute fails only if its command cannot be run; before that, only for what it
        saw. */
    method Execute(p: Proc, run: RunId, name: string, commandRuns: bool, others: Schedule)
      returns (result: ExecuteResult, ghost at: seq<Event>)
      requires Valid() && state.Pc(p).Idle?
      modifies this
      ensures Valid() && state.Pc(p).Idle? && old(trace) <= at <= trace
      ensures result.Executed? ==>
          && run in state.world.rows && result.record in state.world.rows[run] && result.record.name == name
          && result.record.ticket >= old(state).world.tickets
      ensures result.Failed? ==>
          if result.error.CommandFailed? then !commandRuns else Saw(Run(Initial, at).world, run, result.error)
      ensures Quiet(p, others) && Free(old(state).world, run) ==> result.Executed? == commandRuns
    {
      var lock;
      lock, at := LockRun(p, run, name, others);
      if lock.Refused? { return Failed(lock.error), at; }
      if !commandRuns {
        GiveUp(p);
        return Failed(CommandFailed), at;
      }
      RunCommand(p, others);
      return Executed(Record(name, lock.ticket)), at;
    }

    /** The candidates are the listed runs that have expired. */
    method StartCleaning(p: Proc, expired: RunId -> bool) returns (ghost listed: set<RunId>)
      requires Valid() && state.Pc(p).Idle?
      modifies this
      ensures Valid() && old(trace) <= trace && listed == old(state).world.rows.Keys
      ensures state.Pc(p).Scanning? && Accounts(state.Pc(p), listed, expired)
      ensures forall r <- listed :: expired(r) ==> r in state.Pc(p).todo
      ensures state.world == old(state).world && OwnSteps(p, old(trace), trace, {})
      ensures QuietScan(state.world, old(state).world, p, state.Pc(p), listed, expired)
    {
      var rows := ListRuns(state.world);
      listed := state.world.rows.Keys;
      var candidates := [];
      for i := 0 to |rows|
        invariant Distinct(candidates) && |candidates| <= i
        invariant forall r :: r in candidates <==> r in rows[..i] && expired(r)
      {
        if expired(rows[i]) { candidates := candidates + [rows[i]]; }
      }
      OneOwnStep(p, trace, [], StartClean(p, candidates));
      assert trace + [] == trace;
      Happen([StartClean(p, candidates)]);
    }

    /** The scan for deletions, up to the first removal. */
    method Scan(p: Proc, expired: RunId -> bool, others: Schedule)
      returns (kept: nat, deletions: seq<Deletion>, step: nat, ghost listed: set<RunId>)
      requires Valid() && state.Pc(p).Idle?
      modifies this
      ensures Valid() && old(trace) <= trace && listed == old(state).world.rows.Keys
      ensures state.Pc(p) == Removing(kept, deletions, 0)
      ensures Runs(deletions) <= listed && |Runs(deletions)| == |deletions| && kept + |deletions| == |listed|
      ensures forall r <- Runs(deletions) :: expired(r)
      ensures forall r <- listed - Runs(deletions) :: !expired(r) || HeldDuring(r, old(trace), trace)
      ensures OwnSteps(p, old(trace), trace, {})
      ensures Quiet(p, others) ==>
          Runs(deletions) == Expired(old(state).world, expired) && OnlyLocked(state.world, old(state).world, p)
    {
      ghost var first := state.world;
      listed := StartCleaning(p, expired);
      ghost var start := old(trace);
      step := 0;
      while state.Pc(p).todo != []
        invariant Valid() && start <= trace && state.Pc(p).Scanning? && Accounts(state.Pc(p), listed, expired)
        invariant Unlisted(state.Pc(p), listed, expired, start, trace) && OwnSteps(p, start, trace, {})
        invariant Quiet(p, others) ==> QuietScan(state.world, first, p, state.Pc(p), listed, expired)
        decreases |state.Pc(p).todo|, !state.Pc(p).probed
      {
        ghost var pc, earlier := state.Pc(p), trace;
        ghost var before, at := ScanNext(p, others(step), listed, expired, first);
        OneMoreUnlisted(before, p, pc, listed, expired, start, earlier, at, trace);
        MoreOwnSteps(p, start, earlier, trace, {}, {});
        step := step + 1;
      }
      ghost var scanned := trace;
      if Quiet(p, others) { QuietScanEnds(state.world, first, p, state.Pc(p), expired); }
      kept, deletions := StartRemoving(p, others(step), listed, expired);
      MoreOwnSteps(p, start, scanned, trace, {}, {});
    }

    /** One turn of the scan. */
    method ScanNext(p: Proc, others: seq<Event>, ghost listed: set<RunId>, ghost expired: RunId -> bool,
                    ghost first: World) returns (ghost before: World, ghost at: seq<Event>)
      requires Valid() && state.Pc(p).Scanning? && state.Pc(p).todo != [] && Accounts(state.Pc(p), listed, expired)
      modifies this
      ensures Valid() && old(trace) <= at <= trace && Run(Initial, at).world == before
      ensures state.Pc(p) == Advance(before, p, old(state).Pc(p)).pc && state.Pc(p).Scanning?
      ensures Accounts(state.Pc(p), listed, expired) && OwnSteps(p, old(trace), trace, {})
      ensures
        || |state.Pc(p).todo| < |old(state).Pc(p).todo|
        || (state.Pc(p).todo == old(state).Pc(p).todo && state.Pc(p).probed && !old(state).Pc(p).probed)
      ensures Others(p, others) == [] && QuietScan(old(state).world, first, p, old(state).Pc(p), listed, expired) ==>
          QuietScan(state.world, first, p, state.Pc(p), listed, expired)
    {
      ghost var pc, world := state.Pc(p), state.world;
      before, at := Next(p, others);
      ScanAccounts(before, p, pc, listed, expired);
      if Others(p, others) == [] && QuietScan(world, first, p, pc, listed, expired) {
        QuietScanStep(world, first, p, pc, listed, expired);
      }
    }

    method StartRemoving(p: Proc, others: seq<Event>, ghost listed: set<RunId>, ghost expired: RunId -> bool)
      returns (kept: nat, deletions: seq<Deletion>)
      requires Valid() && state.Pc(p).Scanning? && state.Pc(p).todo == []
      requires Accounts(state.Pc(p), listed, expired)
      modifies this
      ensures Valid() && old(trace) <= trace && state.Pc(p) == Removing(kept, deletions, 0)
      ensures Runs(deletions) <= listed && |Runs(deletions)| == |deletions| && kept + |deletions| == |listed|
      ensures forall r <- Runs(deletions) :: expired(r)
      ensures deletions == old(state).Pc(p).deletions && OwnSteps(p, old(trace), trace, {})
      ensures Others(p, others) == [] ==> state.world == old(state).world
    {
      kept, deletions := state.Pc(p).kept, state.Pc(p).deletions;
      var _, _ := Next(p, others);
    }

    /** One turn of that loop. */
    method RemoveNextDir(p: Proc, others: seq<Event>, ghost world: World)
      requires Valid() && state.Pc(p).Removing? && state.Pc(p).next < |state.Pc(p).deletions|
      modifies this
      ensures Valid() && old(trace) <= trace
      ensures state.Pc(p) == old(state).Pc(p).(next := old(state).Pc(p).next + 1)
      ensures OwnSteps(p, old(trace), trace, Runs(old(state).Pc(p).deletions))
      ensures
        var Removing(_, deletions, next) := old(state).Pc(p);
        Others(p, others) == [] && old(state).world == WithoutDirs(world, Runs(deletions[..next])) ==>
          state.world == WithoutDirs(world, Runs(deletions[..next + 1]))
    {
      OneMoreRun(state.Pc(p).deletions, state.Pc(p).next);
      var _, _ := Next(p, others);
    }

    /** The removal of the listed directories. */
    method RemoveListedDirs(p: Proc, others: Schedule, first: nat) returns (step: nat)
      requires Valid() && state.Pc(p).Removing? && state.Pc(p).next == 0
      modifies this
      ensures Valid() && old(trace) <= trace
      ensures state.Pc(p) == old(state).Pc(p).(next := |old(state).Pc(p).deletions|)
      ensures OwnSteps(p, old(trace), trace, Runs(old(state).Pc(p).deletions)) && first <= step
      ensures Quiet(p, others) ==> state.world == WithoutDirs(old(state).world, Runs(old(state).Pc(p).deletions))
    {
      ghost var start, world := state.Pc(p), state.world;
      step := first;
      while state.Pc(p).next < |state.Pc(p).deletions|
        invariant Valid() && old(trace) <= trace && state.Pc(p).Removing? && state.Pc(p).next <= |start.deletions|
        invariant state.Pc(p) == start.(next := state.Pc(p).next) && first <= step
        invariant OwnSteps(p, old(trace), trace, Runs(start.deletions))
        invariant Quiet(p, others) ==> state.world == WithoutDirs(world, Runs(start.deletions[..state.Pc(p).next]))
        decreases |start.deletions| - state.Pc(p).next
      {
        ghost var earlier := trace;
        RemoveNextDir(p, others(step), world);
        MoreOwnSteps(p, old(trace), earlier, trace, Runs(start.deletions), Runs(start.deletions));
        step := step + 1;
      }
      assert start.deletions[..|start.deletions|] == start.deletions;
    }

    /** Every listed run is either kept or deleted, only expired runs are deleted, and a deleted run's row and
        directory are gone; an expired run is kept only if its lock was held meanwhile. */
    method Clean(p: Proc, expired: RunId -> bool, others: Schedule)
      returns (result: CleanResult, ghost listed: set<RunId>, ghost deleted: set<RunId>)
      requires Valid() && state.Pc(p).Idle?
      modifies this
      ensures Valid() && state.Pc(p).Idle? && old(trace) <= trace && listed == old(state).world.rows.Keys
      ensures result.deleted + result.kept == |listed| && result.deleted == |deleted| && deleted <= listed
      ensures forall r <- deleted :: expired(r) && r !in state.world.rows && r !in state.world.dirs
      ensures forall r <- listed - deleted :: !expired(r) || HeldDuring(r, old(trace), trace)
      ensures OwnSteps(p, old(trace), trace, deleted)
      ensures Quiet(p, others) ==>
          deleted == Expired(old(state).world, expired) && state.world == Cleared(old(state).world, deleted)
    {
      ghost var start, first := trace, state.world;
      ReachableInv(trace);
      assert forall r :: !Has(first, p, r) by { forall r ensures !Has(first, p, r) { assert LocksOk(state, p, r); } }
      var kept, deletions, step;
      kept, deletions, step, listed := Scan(p, expired, others);
      deleted := Runs(deletions);
      ghost var scanned, scan := trace, state.world;
      RemoveListed(p, others, step + 1);
      MoreOwnSteps(p, start, scanned, trace, {}, deleted);
      if Quiet(p, others) { LocksGivenBack(scan, first, p, deleted); }
      result := CleanResult(|deletions|, kept);
    }

    /** The part of a clean after the scan. */
    method RemoveListed(p: Proc, others: Schedule, first: nat)
      requires Valid() && state.Pc(p).Removing? && state.Pc(p).next == 0
      modifies this
      ensures Valid() && state.Pc(p).Idle? && old(trace) <= trace
      ensures forall r <- Runs(old(state).Pc(p).deletions) :: r !in state.world.rows && r !in state.world.dirs
      ensures OwnSteps(p, old(trace), trace, Runs(old(state).Pc(p).deletions))
      ensures Quiet(p, others) ==>
          state.world == Release(Cleared(old(state).world, Runs(old(state).Pc(p).deletions)), p)
    {
      ghost var start, runs := trace, Runs(state.Pc(p).deletions);
      var step := RemoveListedDirs(p, others, first);
      ghost var removed := trace;
      DeleteListedRows(p, others(step));
      MoreOwnSteps(p, start, removed, trace, runs, runs);
      ghost var deleted := trace;
      Unlock(p, others(step + 1));
      MoreOwnSteps(p, start, deleted, trace, runs, {});
      assert runs + runs == runs && runs + {} == runs;
    }

    /** The transaction that deletes the listed rows, once every listed directory is gone. */
    method DeleteListedRows(p: Proc, others: seq<Event>)
      requires Valid() && state.Pc(p).Removing? && state.Pc(p).next == |state.Pc(p).deletions|
      modifies this
      ensures Valid() && old(trace) <= trace
      ensures state.Pc(p) == Cleaned(old(state).Pc(p).kept, old(state).Pc(p).deletions)
      ensures forall r <- Runs(old(state).Pc(p).deletions) ::
          r in state.world.persisted && r !in state.world.rows && r !in state.world.dirs
      ensures OwnSteps(p, old(trace), trace, Runs(old(state).Pc(p).deletions))
      ensures Others(p, others) == [] ==>
          state.world == old(state).world.(rows := old(state).world.rows - Runs(old(state).Pc(p).deletions))
    {
      var before, at := Next(p, others);
      ReachableInv(trace);
      assert ProcOk(state, p);
    }

    /** The deferred unlocking; what was deleted is still gone. */
    method Unlock(p: Proc, others: seq<Event>)
      requires Valid() && state.Pc(p).Cleaned?
      requires forall r <- Runs(state.Pc(p).deletions) ::
          r in state.world.persisted && r !in state.world.rows && r !in state.world.dirs
      modifies this
      ensures Valid() && old(trace) <= trace && state.Pc(p).Idle?
      ensures forall r <- Runs(old(state).Pc(p).deletions) :: r !in state.world.rows && r !in state.world.dirs
      ensures OwnSteps(p, old(trace), trace, {})
      ensures Others(p, others) == [] ==> state.world == Release(old(state).world, p)
    {
      var before, at := Next(p, others);
    }
  }
}
