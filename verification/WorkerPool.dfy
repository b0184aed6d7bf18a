/**
  The NTP worker pool as an interleaved step system.

  Threads are N workers, any number of request dispatchers (callers of tpAddTask) and one owner that creates
  and destroys the pool. Every statement that touches shared state is one step, so a run is any interleaving of
  single statements. pthread_cond_wait releases the lock and sleeps in one step; pthread_cond_signal wakes at
  least one sleeper if there is one; a sleeper may also wake spuriously.
 */
module WorkerPool {

  const WORD := 0x1_0000_0000

  /** Who holds pool->lock. */
  datatype Holder = Free | ByWorker(w: nat) | ByClient(c: nat) | ByOwner

  /** Program counters of thread_start_routine. */
  datatype WorkerPc =
    | Unborn
    | Begin              // about to lock
    | CheckExit          // outer exit test, lock held
    | TestQueue          // loop test, lock held
    | Asleep(signalled: bool)
    | Woken              // back from the wait, lock held
    | Fetch              // take the head of the queue, lock held
    | Uncount(t: nat)    // curTasks -= 1, lock held
    | Release(t: nat)
    | Run(t: nat)        // task_handler(args)
    | Free_(t: nat)      // free(args)
    | Retire             // curThreads -= 1, lock held
    | LastUnlock
    | Gone

  /** Program counters of a dispatcher: the receive loop around tpAddTask. */
  datatype ClientPc =
    | Idle
    | Got(r: nat)        // a request was received
    | Enter(r: nat)      // tpAddTask, about to lock
    | CheckFull(r: nat)
    | CheckGone(r: nat)
    | Alloc(r: nat)
    | Insert(r: nat)
    | Count(r: nat)
    | Signal(r: nat)
    | Leave              // unlock, then return true
    | Refuse(r: nat)     // unlock, then return false
    | Drop(r: nat)       // the caller frees the request
    | Stopped

  /** Program counters of the owner: tpCreate, service, tpDestroy. */
  datatype OwnerPc =
    | Create
    | Created            // pthread_create returned, curThreads += 1 pending
    | Serve
    | ExitLock
    | SetExit
    | ExitUnlock(num: nat)
    | LoopLock(num: nat)
    | ReadThreads(num: nat)
    | Broadcast(num: nat, tmp: nat)
    | LoopUnlock(num: nat, tmp: nat)
    | LoopTest(num: nat, tmp: nat)
    | Join(num: nat, i: nat)
    | Done

  /** The shared fields of struct threadpool. */
  datatype Pool = Pool(queue: seq<nat>, curTasks: nat, maxTasks: nat, bExit: bool, curThreads: nat)

  /** What happened so far to the requests 0, 1, ..., issued - 1. */
  datatype Log = Log(issued: nat, accepted: seq<nat>, taken: seq<nat>, ran: seq<nat>, freed: seq<nat>, leaked: seq<nat>)

  datatype State = State(
    lock: Holder,
    workers: seq<WorkerPc>,
    clients: seq<ClientPc>,
    owner: OwnerPc,
    born: nat,
    pool: Pool,
    log: Log)

  /** One step of one thread. The arguments resolve what the C library leaves open. */
  datatype Step =
    | WorkerStep(w: nat)
    | SpuriousWake(w: nat)
    | Receive(c: nat)                    // reqReceive returned a request
    | FpgaFault(c: nat)                  // the FPGA check failed: leave the loop
    | ClockUnusable(c: nat)              // free(req); continue
    | CallAdd(c: nat)                    // call tpAddTask
    | ClientStep(c: nat, mallocOk: bool, wake: set<nat>)
    | CallDestroy
    | OwnerStep

  function Inc32(x: nat): nat { (x + 1) % WORD }

  function Dec32(x: nat): nat { (x + WORD - 1) % WORD }

  predicate WorkerHolds(p: WorkerPc) {
    p.CheckExit? || p.TestQueue? || p.Woken? || p.Fetch? || p.Uncount? || p.Release? || p.Retire? || p.LastUnlock?
  }

  predicate ClientHolds(p: ClientPc) {
    p.CheckFull? || p.CheckGone? || p.Alloc? || p.Insert? || p.Count? || p.Signal? || p.Leave? || p.Refuse?
  }

  predicate OwnerHolds(p: OwnerPc) {
    p.SetExit? || p.ExitUnlock? || p.ReadThreads? || p.Broadcast? || p.LoopUnlock?
  }

  function Sleepers(ws: seq<WorkerPc>): set<nat> {
    set w: nat | w < |ws| && ws[w] == Asleep(false)
  }

  function Wake(ws: seq<WorkerPc>, who: set<nat>): (r: seq<WorkerPc>)
    ensures |r| == |ws|
    ensures forall i :: 0 <= i < |ws| ==>
              r[i] == if i in who && ws[i] == Asleep(false) then Asleep(true) else ws[i]
  {
    seq(|ws|, i requires 0 <= i < |ws| => if i in who && ws[i] == Asleep(false) then Asleep(true) else ws[i])
  }

  function Init(threads: nat, dispatchers: nat, tasks: nat): State {
    State(Free, seq(threads, _ => Unborn), seq(dispatchers, _ => Idle), Create, 0,
          Pool([], 0, tasks, false, 0), Log(0, [], [], [], [], []))
  }

  predicate ValidSize(threads: nat, tasks: nat) {
    0 < threads <= 32 && 0 < tasks <= 2048
  }

  predicate Enabled(s: State, step: Step) {
    match step
    case WorkerStep(w) =>
      w < |s.workers| && (match s.workers[w]
        case Unborn => false
        case Gone => false
        case Asleep(signalled) => signalled && s.lock.Free?
        case Begin => s.lock.Free?
        case _ => true)
    case SpuriousWake(w) => w < |s.workers| && s.workers[w] == Asleep(false)
    case Receive(c) => c < |s.clients| && s.clients[c].Idle?
    case FpgaFault(c) => c < |s.clients| && (s.clients[c].Idle? || s.clients[c].Got?)
    case ClockUnusable(c) => c < |s.clients| && s.clients[c].Got?
    case CallAdd(c) => c < |s.clients| && s.clients[c].Got?
    case ClientStep(c, mallocOk, wake) =>
      c < |s.clients| && (match s.clients[c]
        case Idle => false
        case Got(_) => false
        case Stopped => false
        case Enter(_) => s.lock.Free?
        case Signal(_) => wake <= Sleepers(s.workers) && (Sleepers(s.workers) != {} ==> wake != {})
        case _ => true)
    case CallDestroy => s.owner.Serve?
    case OwnerStep =>
      (match s.owner
        case Serve => false
        case Done => false
        case ExitLock => s.lock.Free?
        case LoopLock(_) => s.lock.Free?
        case Join(num, i) => i < num ==> i < |s.workers| && s.workers[i].Gone?
        case _ => true)
  }

  /** What one statement does: the thread's next program counter, and the lock, pool and history after it. */
  datatype Move<Pc> = Move(pc: Pc, lock: Holder, pool: Pool, log: Log)

  function WorkerMove(pc: WorkerPc, w: nat, lock: Holder, pool: Pool, log: Log): Move<WorkerPc>
    requires !pc.Unborn? && !pc.Gone?
  {
    match pc
    case Begin => Move(CheckExit, ByWorker(w), pool, log)
    case CheckExit => Move(if pool.bExit && pool.queue == [] then Retire else TestQueue, lock, pool, log)
    case TestQueue => if pool.queue == [] then Move(Asleep(false), Free, pool, log) else Move(Fetch, lock, pool, log)
    case Asleep(_) => Move(Woken, ByWorker(w), pool, log)
    case Woken => Move(if pool.bExit && pool.queue == [] then Retire else TestQueue, lock, pool, log)
    case Fetch =>
      if pool.queue == [] then Move(Fetch, lock, pool, log)   // a null head; ExitInv shows it unreachable
      else Move(Uncount(pool.queue[0]), lock, pool.(queue := pool.queue[1..]),
                log.(taken := log.taken + [pool.queue[0]]))
    case Uncount(t) => Move(Release(t), lock, pool.(curTasks := Dec32(pool.curTasks)), log)
    case Release(t) => Move(Run(t), Free, pool, log)
    case Run(t) => Move(Free_(t), lock, pool, log.(ran := log.ran + [t]))
    case Free_(t) => Move(Begin, lock, pool, log.(freed := log.freed + [t]))
    case Retire => Move(LastUnlock, lock, pool.(curThreads := Dec32(pool.curThreads)), log)
    case LastUnlock => Move(Gone, Free, pool, log)
  }

  function ClientMove(pc: ClientPc, c: nat, mallocOk: bool, lock: Holder, pool: Pool, log: Log): Move<ClientPc>
    requires !pc.Idle? && !pc.Got? && !pc.Stopped?
  {
    match pc
    case Enter(r) => Move(CheckFull(r), ByClient(c), pool, log)
    case CheckFull(r) => Move(if pool.curTasks >= pool.maxTasks then Refuse(r) else CheckGone(r), lock, pool, log)
    case CheckGone(r) => Move(if pool.bExit then Refuse(r) else Alloc(r), lock, pool, log)
    case Alloc(r) => Move(if mallocOk then Insert(r) else Refuse(r), lock, pool, log)
    case Insert(r) => Move(Count(r), lock, pool.(queue := pool.queue + [r]), log.(accepted := log.accepted + [r]))
    case Count(r) => Move(Signal(r), lock, pool.(curTasks := Inc32(pool.curTasks)), log)
    case Signal(r) => Move(Leave, lock, pool, log)
    case Leave => Move(Idle, Free, pool, log)
    case Refuse(r) => Move(Drop(r), Free, pool, log)
    case Drop(r) => Move(Idle, lock, pool, log.(freed := log.freed + [r]))
  }

  function OwnerMove(pc: OwnerPc, allBorn: bool, lock: Holder, pool: Pool, log: Log): Move<OwnerPc>
    requires !pc.Serve? && !pc.Done?
  {
    match pc
    case Create => Move(if allBorn then Serve else Created, lock, pool, log)
    case Created => Move(Create, lock, pool.(curThreads := Inc32(pool.curThreads)), log)
    case ExitLock => Move(SetExit, ByOwner, pool, log)
    case SetExit => Move(ExitUnlock(pool.curThreads), lock, pool.(bExit := true), log)
    case ExitUnlock(num) => Move(LoopLock(num), Free, pool, log)
    case LoopLock(num) => Move(ReadThreads(num), ByOwner, pool, log)
    case ReadThreads(num) => Move(Broadcast(num, pool.curThreads), lock, pool, log)
    case Broadcast(num, tmp) => Move(LoopUnlock(num, tmp), lock, pool, log)
    case LoopUnlock(num, tmp) => Move(LoopTest(num, tmp), Free, pool, log)
    case LoopTest(num, tmp) => Move(if tmp != 0 then LoopLock(num) else Join(num, 0), lock, pool, log)
    case Join(num, i) => Move(if i < num then Join(num, i + 1) else Done, lock, pool, log)
  }

  function DoWorker(s: State, w: nat): State
    requires Enabled(s, WorkerStep(w))
  {
    var m := WorkerMove(s.workers[w], w, s.lock, s.pool, s.log);
    State(m.lock, s.workers[w := m.pc], s.clients, s.owner, s.born, m.pool, m.log)
  }

  function DoClient(s: State, c: nat, mallocOk: bool, wake: set<nat>): State
    requires Enabled(s, ClientStep(c, mallocOk, wake))
  {
    var m := ClientMove(s.clients[c], c, mallocOk, s.lock, s.pool, s.log);
    var workers := if s.clients[c].Signal? then Wake(s.workers, wake) else s.workers;
    State(m.lock, workers, s.clients[c := m.pc], s.owner, s.born, m.pool, m.log)
  }

  function DoOwner(s: State): State
    requires Enabled(s, OwnerStep)
  {
    var m := OwnerMove(s.owner, s.born >= |s.workers|, s.lock, s.pool, s.log);
    var starts := s.owner.Create? && s.born < |s.workers|;
    var workers := if starts then s.workers[s.born := Begin]
                   else if s.owner.Broadcast? then Wake(s.workers, Sleepers(s.workers))
                   else s.workers;
    State(m.lock, workers, s.clients, m.pc, if starts then s.born + 1 else s.born, m.pool, m.log)
  }

  /** The dispatch loop around tpAddTask: no lock is involved. */
  function Dispatch(s: State, step: Step): State
    requires step.Receive? || step.FpgaFault? || step.ClockUnusable? || step.CallAdd?
    requires Enabled(s, step)
  {
    var c := step.c;
    match step
    case Receive(_) => s.(clients := s.clients[c := Got(s.log.issued)], log := s.log.(issued := s.log.issued + 1))
    case FpgaFault(_) =>
      var lost := if s.clients[c].Got? then [s.clients[c].r] else [];
      s.(clients := s.clients[c := Stopped], log := s.log.(leaked := s.log.leaked + lost))
    case ClockUnusable(_) => s.(clients := s.clients[c := Drop(s.clients[c].r)])
    case CallAdd(_) => s.(clients := s.clients[c := Enter(s.clients[c].r)])
  }

  function Next(s: State, step: Step): State
    requires Enabled(s, step)
  {
    match step
    case WorkerStep(w) => DoWorker(s, w)
    case SpuriousWake(w) => s.(workers := s.workers[w := Asleep(true)])
    case ClientStep(c, mallocOk, wake) => DoClient(s, c, mallocOk, wake)
    case CallDestroy => s.(owner := ExitLock)
    case OwnerStep => DoOwner(s)
    case _ => Dispatch(s, step)
  }

  /** The steps can be taken one after another from s. */
  predicate ValidRun(s: State, run: seq<Step>)
    decreases |run|
  {
    run == [] || (Enabled(s, run[0]) && ValidRun(Next(s, run[0]), run[1..]))
  }

  /** The state after a run. */
  function After(s: State, run: seq<Step>): State
    requires ValidRun(s, run)
    decreases |run|
  {
    if run == [] then s else After(Next(s, run[0]), run[1..])
  }
}
