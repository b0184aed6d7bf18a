/**
  What the worker pool guarantees to its callers, for every run of every interleaving from tpCreate on.
 */
module WorkerPoolTheorems {
  import opened WorkerPool
  import opened WorkerPoolProofs

  /** States some run of the pool can be in. */
  ghost predicate Reachable(s: State) {
    exists threads: nat, dispatchers: nat, tasks: nat, run: seq<Step> ::
      ValidSize(threads, tasks) && ValidRun(Init(threads, dispatchers, tasks), run)
      && s == After(Init(threads, dispatchers, tasks), run)
  }

  lemma ReachableInv(s: State)
    requires Reachable(s)
    ensures Inv(s)
  {
    var threads: nat, dispatchers: nat, tasks: nat, run: seq<Step> :|
      ValidSize(threads, tasks) && ValidRun(Init(threads, dispatchers, tasks), run)
      && s == After(Init(threads, dispatchers, tasks), run);
    InitInv(threads, dispatchers, tasks);
    InvRun(Init(threads, dispatchers, tasks), run);
  }

  // ---------- the pool that was asked for ----------

  /**
    In every run the pool has the workers, the dispatchers and the places it was created with, the queue is within
    those places, and from the end of tpCreate until the exit flag is set all the workers are counted.
   */
  lemma PoolAsAsked(threads: nat, dispatchers: nat, tasks: nat, run: seq<Step>)
    requires 1 <= threads <= 32 && 1 <= tasks <= 2048 && ValidRun(Init(threads, dispatchers, tasks), run)
    ensures var s := After(Init(threads, dispatchers, tasks), run);
      |s.workers| == threads && |s.clients| == dispatchers && s.pool.maxTasks == tasks && |s.pool.queue| <= tasks
      && (!s.owner.Create? && !s.owner.Created? && !s.pool.bExit ==> s.pool.curThreads == threads)
  {
    var s := After(Init(threads, dispatchers, tasks), run);
    InitInv(threads, dispatchers, tasks);
    InvRun(Init(threads, dispatchers, tasks), run);
    SizesStay(Init(threads, dispatchers, tasks), run);
    if !s.owner.Create? && !s.owner.Created? && !s.pool.bExit {
      assert forall w :: 0 <= w < |s.workers| ==> Live(s.workers[w]) == 1;
      LiveBound(s.workers);
    }
  }

  /** A dispatcher at the first test is refused exactly when as many tasks are queued as the pool was created for. */
  lemma RefusedIff(threads: nat, dispatchers: nat, tasks: nat, run: seq<Step>, c: nat, mallocOk: bool, wake: set<nat>)
    requires 1 <= threads <= 32 && 1 <= tasks <= 2048 && ValidRun(Init(threads, dispatchers, tasks), run)
    requires var s := After(Init(threads, dispatchers, tasks), run);
      Enabled(s, ClientStep(c, mallocOk, wake)) && s.clients[c].CheckFull?
    ensures var s := After(Init(threads, dispatchers, tasks), run);
      DoClient(s, c, mallocOk, wake).clients[c].Refuse? <==> |s.pool.queue| >= tasks
  {
    InitInv(threads, dispatchers, tasks);
    InvRun(Init(threads, dispatchers, tasks), run);
    SizesStay(Init(threads, dispatchers, tasks), run);
  }

  /** Behind it only the exit flag and a lack of memory refuse, and an accepted request goes to the end of the queue. */
  lemma LaterTests(s: State, c: nat, mallocOk: bool, wake: set<nat>)
    requires Enabled(s, ClientStep(c, mallocOk, wake))
    ensures var t := DoClient(s, c, mallocOk, wake);
      (s.clients[c].CheckGone? ==> (t.clients[c].Refuse? <==> s.pool.bExit))
      && (s.clients[c].Alloc? ==> (t.clients[c].Refuse? <==> !mallocOk))
      && t.pool.queue == (if s.clients[c].Insert? then s.pool.queue + [s.clients[c].r] else s.pool.queue)
  {
  }

  // ---------- no lost wakeup ----------

  /** A dispatcher is between queueing a task and signalling it. */
  ghost predicate Signalling(s: State) {
    exists c :: 0 <= c < |s.clients| && (s.clients[c].Count? || s.clients[c].Signal?)
  }

  /**
    While some worker sleeps unsignalled, every queued task has a worker of its own that is awake (or signalled)
    and uncommitted, except one that a dispatcher is about to signal; so a queued task is never left with all idle
    workers asleep.
   */
  lemma NoLostWakeup(s: State)
    requires Reachable(s) && Sleepers(s.workers) != {}
    ensures |s.pool.queue| <= Total(s.workers, Ready) + if Signalling(s) then 1 else 0
    ensures s.pool.queue != [] && !Signalling(s) ==> exists w :: 0 <= w < |s.workers| && Ready(s.workers[w]) == 1
  {
    ReachableInv(s);
    TotalZero(s.workers, Ready);
  }

  /** A step of a thread already inside pool code: nothing new arrives, nothing wakes by luck. */
  ghost predicate Internal(step: Step) { step.WorkerStep? || step.ClientStep? || step.OwnerStep? }

  ghost predicate CanMove(s: State) { exists step :: Internal(step) && Enabled(s, step) }

  lemma LockHolderMoves(s: State)
    requires Inv(s) && !s.lock.Free?
    ensures CanMove(s)
  {
    match s.lock {
      case ByWorker(w) => assert Enabled(s, WorkerStep(w));
      case ByClient(c) => assert Enabled(s, ClientStep(c, true, Sleepers(s.workers)));
      case ByOwner => assert Enabled(s, OwnerStep);
    }
  }

  /** The pool never stops while a task is queued: some thread inside it can always take a step. */
  lemma QueuedTaskProgress(s: State)
    requires Reachable(s) && s.pool.queue != []
    ensures CanMove(s)
  {
    ReachableInv(s);
    if !s.lock.Free? {
      LockHolderMoves(s);
    } else if s.owner.Create? || s.owner.Created? {
      assert Enabled(s, OwnerStep);
    } else if Sleepers(s.workers) != {} {
      TotalZero(s.workers, Ready);
      var w :| 0 <= w < |s.workers| && Ready(s.workers[w]) == 1;
      assert Enabled(s, WorkerStep(w));
    } else {
      CreatedWorkers(s);
      assert 0 !in Sleepers(s.workers);
      assert Enabled(s, WorkerStep(0));
    }
  }

  /** tpCreate refuses to build a pool without workers. */
  lemma CreatedWorkers(s: State)
    requires Reachable(s)
    ensures 0 < |s.workers|
  {
    var threads: nat, dispatchers: nat, tasks: nat, run: seq<Step> :|
      ValidSize(threads, tasks) && ValidRun(Init(threads, dispatchers, tasks), run)
      && s == After(Init(threads, dispatchers, tasks), run);
    SizesStay(Init(threads, dispatchers, tasks), run);
  }

  lemma {:induction false} SizesStay(s: State, run: seq<Step>)
    requires ValidRun(s, run)
    ensures var t := After(s, run);
      |t.workers| == |s.workers| && |t.clients| == |s.clients| && t.pool.maxTasks == s.pool.maxTasks
    decreases |run|
  {
    if run != [] { SizesStay(Next(s, run[0]), run[1..]); }
  }

  /** A step that takes no task brings the workers nearer to taking one, while there is one in the queue. */
  lemma NearerToTaking(s: State, step: Step)
    requires Inv(s) && Enabled(s, step) && s.pool.queue != [] && Next(s, step).log.taken == s.log.taken
    ensures Next(s, step).pool.queue != []
    ensures Total(Next(s, step).workers, Distance) + WorkerSteps([step]) <= Total(s.workers, Distance)
  {
    assert [step][1..] == [];
    match step {
      case WorkerStep(w) => WorkerNears(s, w);
      case SpuriousWake(w) => TotalAt(s.workers, Distance, w, Asleep(true));
      case ClientStep(_, _, wake) => TotalMono(s.workers, Wake(s.workers, wake), Distance);
      case OwnerStep =>
        if s.owner.Create? && s.born < |s.workers| {
          TotalAt(s.workers, Distance, s.born, Begin);
        } else {
          TotalMono(s.workers, Wake(s.workers, Sleepers(s.workers)), Distance);
        }
      case _ =>
    }
  }

  lemma WorkerNears(s: State, w: nat)
    requires Inv(s) && Enabled(s, WorkerStep(w)) && s.pool.queue != [] && DoWorker(s, w).log.taken == s.log.taken
    ensures DoWorker(s, w).pool.queue != []
    ensures Total(DoWorker(s, w).workers, Distance) + 1 <= Total(s.workers, Distance)
  {
    TotalAt(s.workers, Distance, w, DoWorker(s, w).workers[w]);
  }

  lemma {:induction false} TakenGrows(s: State, run: seq<Step>)
    requires ValidRun(s, run)
    ensures |s.log.taken| <= |After(s, run).log.taken|
    ensures |s.log.taken| == |After(s, run).log.taken| ==> s.log.taken == After(s, run).log.taken
    decreases |run|
  {
    if run != [] { TakenGrows(Next(s, run[0]), run[1..]); }
  }

  lemma {:induction false} StepsToTaking(s: State, run: seq<Step>)
    requires Inv(s) && ValidRun(s, run) && s.pool.queue != [] && After(s, run).log.taken == s.log.taken
    ensures WorkerSteps(run) <= Total(s.workers, Distance)
    decreases |run|
  {
    if run != [] {
      var t := Next(s, run[0]);
      TakenGrows(s, [run[0]]);
      TakenGrows(t, run[1..]);
      InvStep(s, run[0]);
      NearerToTaking(s, run[0]);
      StepsToTaking(t, run[1..]);
      assert [run[0]][1..] == [];
    }
  }

  /** A queued task is soon taken: a run that takes none has room for ten worker steps and wakeups a worker. */
  lemma DispatchBound(s: State, run: seq<Step>)
    requires Reachable(s) && s.pool.queue != [] && ValidRun(s, run)
    requires After(s, run).log.taken == s.log.taken
    ensures WorkerSteps(run) <= 10 * |s.workers|
  {
    ReachableInv(s);
    StepsToTaking(s, run);
    DistanceBound(s.workers);
  }

  // ---------- exactly-once FIFO dispatch ----------

  lemma FifoDispatch(s: State)
    requires Reachable(s)
    ensures s.log.accepted == s.log.taken + s.pool.queue
    ensures |s.pool.queue| <= s.pool.maxTasks
    ensures s.lock.Free? ==> s.pool.curTasks == |s.pool.queue|
    ensures s.lock.Free? && !s.owner.Created? ==> s.pool.curThreads == Total(s.workers, Live)
    ensures forall r: nat :: multiset(s.log.ran)[r] <= multiset(s.log.taken)[r] <= multiset(s.log.accepted)[r] <= 1
  {
    ReachableInv(s);
    forall r: nat
      ensures multiset(s.log.ran)[r] <= multiset(s.log.taken)[r] <= multiset(s.log.accepted)[r] <= 1
    {
      assert RanInv(s, r) && OnceInv(s, r);
    }
  }

  /** At every moment a request that was received is in exactly one place. */
  lemma BufferOwnership(s: State, r: nat)
    requires Reachable(s)
    ensures Total(s.clients, ClientOwns(r)) + multiset(s.pool.queue)[r] + Total(s.workers, WorkerOwns(r))
            + multiset(s.log.freed)[r] + multiset(s.log.leaked)[r] == if r < s.log.issued then 1 else 0
  {
    ReachableInv(s);
    assert OwnInv(s, r);
  }

  /** The owner is back from tpDestroy and no dispatcher is inside a call. */
  ghost predicate Quiet(s: State) {
    s.owner.Done? && forall c :: 0 <= c < |s.clients| ==> s.clients[c].Idle? || s.clients[c].Stopped?
  }

  lemma AtRest(s: State, r: nat)
    requires Reachable(s) && Quiet(s)
    ensures multiset(s.log.freed)[r] + multiset(s.log.leaked)[r] == if r < s.log.issued then 1 else 0
  {
    ReachableInv(s);
    CreatedWorkers(s);
    assert s.workers[0].Gone?;
    assert OwnInv(s, r);
    TotalZero(s.clients, ClientOwns(r));
    TotalZero(s.workers, WorkerOwns(r));
  }

  /**
    When everything has come to rest, every buffer was freed exactly once - by the worker that ran it or by the
    dispatcher whose call was refused - if and only if no dispatcher left its loop on an FPGA fault while
    holding a request.
   */
  lemma FreedExactlyOnce(s: State)
    requires Reachable(s) && Quiet(s)
    ensures (forall r: nat :: r < s.log.issued ==> multiset(s.log.freed)[r] == 1) <==> s.log.leaked == []
    ensures forall r: nat :: multiset(s.log.freed)[r] <= 1
    ensures forall r: nat :: r < s.log.issued ==> (multiset(s.log.freed)[r] == 0 <==> r in s.log.leaked)
  {
    forall r: nat
      ensures multiset(s.log.freed)[r] + multiset(s.log.leaked)[r] == if r < s.log.issued then 1 else 0
    {
      AtRest(s, r);
    }
    if s.log.leaked != [] { assert s.log.leaked[0] in multiset(s.log.leaked); }
  }

  /** The steps of a run that leave the loop on an FPGA fault holding a request. */
  ghost predicate FaultsHolding(s: State, run: seq<Step>)
    requires ValidRun(s, run)
    decreases |run|
  {
    run != [] && ((run[0].FpgaFault? && s.clients[run[0].c].Got?) || FaultsHolding(Next(s, run[0]), run[1..]))
  }

  lemma {:induction false} LeakedGrows(s: State, run: seq<Step>)
    requires ValidRun(s, run)
    ensures |s.log.leaked| <= |After(s, run).log.leaked|
    ensures FaultsHolding(s, run) <==> After(s, run).log.leaked != s.log.leaked
    ensures After(s, run).log.leaked != s.log.leaked ==> |s.log.leaked| < |After(s, run).log.leaked|
    decreases |run|
  {
    if run != [] { LeakedGrows(Next(s, run[0]), run[1..]); }
  }

  /** A request leaks exactly in the runs that contain such a fault. */
  lemma LeakedIff(threads: nat, dispatchers: nat, tasks: nat, run: seq<Step>)
    requires ValidRun(Init(threads, dispatchers, tasks), run)
    ensures After(Init(threads, dispatchers, tasks), run).log.leaked != []
            <==> FaultsHolding(Init(threads, dispatchers, tasks), run)
  {
    LeakedGrows(Init(threads, dispatchers, tasks), run);
  }

  /** Such a run: one request arrives, then the FPGA check fails. */
  lemma LeakExample()
    ensures var s := Init(1, 1, 1);
            ValidRun(s, [Receive(0), FpgaFault(0)]) && After(s, [Receive(0), FpgaFault(0)]).log.leaked == [0]
  {
    var s := Init(1, 1, 1);
    var t := Next(s, Receive(0));
    var u := Next(t, FpgaFault(0));
    assert [Receive(0), FpgaFault(0)][1..] == [FpgaFault(0)];
    assert [FpgaFault(0)][1..] == [];
    assert ValidRun(u, []);
    assert ValidRun(t, [FpgaFault(0)]);
    assert After(t, [FpgaFault(0)]) == u;
  }

  // ---------- draining shutdown ----------

  lemma {:induction false} ExitIsForever(s: State, run: seq<Step>)
    requires Inv(s) && ValidRun(s, run) && s.pool.bExit
    ensures var t := After(s, run); t.pool.bExit && t.log.accepted == s.log.accepted
    decreases |run|
  {
    if run != [] {
      InvStep(s, run[0]);
      AcceptsNothing(s, run[0]);
      ExitIsForever(Next(s, run[0]), run[1..]);
    }
  }

  lemma AcceptsNothing(s: State, step: Step)
    requires Inv(s) && Enabled(s, step) && s.pool.bExit
    ensures Next(s, step).pool.bExit && Next(s, step).log.accepted == s.log.accepted
    ensures |Next(s, step).pool.queue| <= |s.pool.queue|
  {
  }

  /** Once bExit is set nothing more is accepted, whatever the dispatchers still try. */
  lemma NothingAcceptedAfterExit(s: State, run: seq<Step>)
    requires Reachable(s) && s.pool.bExit && ValidRun(s, run)
    ensures After(s, run).log.accepted == s.log.accepted
  {
    ReachableInv(s);
    ExitIsForever(s, run);
  }

  lemma {:induction false} EmptyStays(s: State, run: seq<Step>)
    requires Inv(s) && ValidRun(s, run) && s.pool.bExit && s.pool.queue == []
    ensures After(s, run).pool.queue == []
    decreases |run|
  {
    if run != [] {
      InvStep(s, run[0]);
      AcceptsNothing(s, run[0]);
      EmptyStays(Next(s, run[0]), run[1..]);
    }
  }

  /** A worker leaves only when the queue is empty, and from then on it stays empty. */
  lemma WorkerLeavesEmptyQueue(s: State, w: nat, run: seq<Step>)
    requires Reachable(s) && w < |s.workers| && s.workers[w].Gone? && ValidRun(s, run)
    ensures s.pool.bExit && s.pool.queue == [] && After(s, run).pool.queue == []
  {
    ReachableInv(s);
    EmptyStays(s, run);
  }

  /** When tpDestroy returns, every accepted task has been taken, run once and its buffer freed. */
  lemma DestroyDrains(s: State)
    requires Reachable(s) && s.owner.Done?
    ensures s.pool.queue == [] && s.pool.curThreads == 0
    ensures s.log.taken == s.log.accepted && multiset(s.log.ran) == multiset(s.log.accepted)
    ensures forall r :: r in s.log.accepted ==> multiset(s.log.freed)[r] == 1
  {
    ReachableInv(s);
    CreatedWorkers(s);
    assert s.workers[0].Gone?;
    TotalZero(s.workers, Live);
    forall r: nat ensures multiset(s.log.ran)[r] == multiset(s.log.accepted)[r] {
      assert RanInv(s, r);
      TotalZero(s.workers, NotRunYet(r));
    }
    forall r | r in s.log.accepted ensures multiset(s.log.freed)[r] == 1 { AcceptedIsFreed(s, r); }
  }

  lemma AcceptedIsFreed(s: State, r: nat)
    requires Reachable(s) && s.owner.Done? && r in s.log.accepted
    ensures multiset(s.log.freed)[r] == 1
  {
    ReachableInv(s);
    CreatedWorkers(s);
    assert s.workers[0].Gone?;
    assert OwnInv(s, r) && OnceInv(s, r);
    TotalZero(s.workers, WorkerOwns(r));
  }

  /** How far each worker is from leaving once there is nothing to do, and from taking a task while there is one. */
  ghost function Distance(p: WorkerPc): nat {
    match p
    case Unborn => 7
    case Gone => 0
    case LastUnlock => 1
    case Retire => 2
    case Fetch => 3
    case TestQueue => 4
    case CheckExit => 5
    case Woken => 5
    case Begin => 6
    case Asleep(signalled) => if signalled then 6 else 7
    case Free_(_) => 7
    case Run(_) => 8
    case Release(_) => 9
    case Uncount(_) => 10
  }

  /** A bound on the work left: the distance of each worker, and a full round for each queued task. */
  ghost function WorkLeft(s: State): nat { Total(s.workers, Distance) + 8 * |s.pool.queue| }

  ghost function WorkerSteps(run: seq<Step>): nat {
    if run == [] then 0
    else (if run[0].WorkerStep? || run[0].SpuriousWake? then 1 else 0) + WorkerSteps(run[1..])
  }

  lemma WorkShrinks(s: State, step: Step)
    requires Inv(s) && Enabled(s, step) && s.pool.bExit
    ensures WorkLeft(Next(s, step)) + WorkerSteps([step]) <= WorkLeft(s)
  {
    assert [step][1..] == [];
    match step {
      case WorkerStep(w) => WorkerGetsOn(s, w);
      case SpuriousWake(w) => TotalAt(s.workers, Distance, w, Asleep(true));
      case ClientStep(_, _, wake) => TotalMono(s.workers, Wake(s.workers, wake), Distance);
      case OwnerStep => TotalMono(s.workers, Wake(s.workers, Sleepers(s.workers)), Distance);
      case _ =>
    }
  }

  lemma WorkerGetsOn(s: State, w: nat)
    requires Inv(s) && Enabled(s, WorkerStep(w)) && s.pool.bExit
    ensures WorkLeft(DoWorker(s, w)) + 1 <= WorkLeft(s)
  {
    TotalAt(s.workers, Distance, w, DoWorker(s, w).workers[w]);
  }

  lemma {:induction false} WorkBound(s: State, run: seq<Step>)
    requires Inv(s) && ValidRun(s, run) && s.pool.bExit
    ensures WorkLeft(After(s, run)) + WorkerSteps(run) <= WorkLeft(s)
    decreases |run|
  {
    if run != [] {
      InvStep(s, run[0]);
      AcceptsNothing(s, run[0]);
      WorkShrinks(s, run[0]);
      assert [run[0]][1..] == [];
      WorkBound(Next(s, run[0]), run[1..]);
    }
  }

  /**
    After bExit the workers can take only so many more steps in any run, spurious wakeups included: nobody goes
    back to sleep, and every task is run once. Together with ShutdownProgress: tpDestroy ends under any scheduler
    that lets every runnable thread run.
   */
  lemma DrainBound(s: State, run: seq<Step>)
    requires Reachable(s) && s.pool.bExit && ValidRun(s, run)
    ensures WorkerSteps(run) <= 10 * |s.workers| + 8 * s.pool.maxTasks
  {
    ReachableInv(s);
    WorkBound(s, run);
    DistanceBound(s.workers);
  }

  lemma {:induction false} DistanceBound(ws: seq<WorkerPc>)
    ensures Total(ws, Distance) <= 10 * |ws|
  {
    if ws != [] { DistanceBound(ws[1..]); }
  }

  /** tpDestroy was called and has not returned. */
  ghost predicate Destroying(o: OwnerPc) { o.ExitLock? || o.SetExit? || (Closing(o) && !o.Done?) }

  /** Until tpDestroy returns some thread inside the pool can always take a step. */
  lemma ShutdownProgress(s: State)
    requires Reachable(s) && Destroying(s.owner)
    ensures CanMove(s)
  {
    ReachableInv(s);
    if s.lock.Free? { assert Enabled(s, OwnerStep); } else { LockHolderMoves(s); }
  }

  /**
    The loop of tpDestroy never waits in vain: after each broadcast, as long as some worker lives, a thread other
    than the owner can take a step.
   */
  lemma WorkersProgress(s: State)
    requires Reachable(s) && s.owner.LoopTest? && exists w :: 0 <= w < |s.workers| && !s.workers[w].Gone?
    ensures exists step: Step :: (step.WorkerStep? || step.ClientStep?) && Enabled(s, step)
  {
    ReachableInv(s);
    var w :| 0 <= w < |s.workers| && !s.workers[w].Gone?;
    match s.lock {
      case ByWorker(v) => assert Enabled(s, WorkerStep(v));
      case ByClient(c) => assert Enabled(s, ClientStep(c, true, Sleepers(s.workers)));
      case Free => assert Enabled(s, WorkerStep(w));
      case ByOwner =>
    }
  }
}
