/**
  What every interleaving of the worker pool keeps: mutual exclusion, exact counters, FIFO dispatch, no lost
  wakeup, exactly-once release of request buffers, and a draining shutdown.
 */
module WorkerPoolProofs {
  import opened WorkerPool

  // ---------- sums over the threads ----------

  ghost function Total<T>(ws: seq<T>, f: T -> nat): nat {
    if ws == [] then 0 else f(ws[0]) + Total(ws[1..], f)
  }

  lemma {:induction false} TotalAt<T>(ws: seq<T>, f: T -> nat, w: nat, p: T)
    requires w < |ws|
    ensures Total(ws[w := p], f) + f(ws[w]) == Total(ws, f) + f(p)
    ensures f(ws[w]) <= Total(ws, f)
  {
    if w > 0 {
      assert ws[w := p][1..] == ws[1..][w - 1 := p];
      TotalAt(ws[1..], f, w - 1, p);
    } else {
      assert ws[w := p][1..] == ws[1..];
    }
  }

  /** Replacing threads by others no heavier never raises a total, and lowers it if one got strictly lighter. */
  lemma {:induction false} TotalMono<T>(ws: seq<T>, vs: seq<T>, f: T -> nat)
    requires |ws| == |vs| && forall i :: 0 <= i < |ws| ==> f(vs[i]) <= f(ws[i])
    ensures Total(vs, f) <= Total(ws, f)
    ensures (exists i :: 0 <= i < |ws| && f(vs[i]) < f(ws[i])) ==> Total(vs, f) < Total(ws, f)
  {
    if ws != [] { TotalMono(ws[1..], vs[1..], f); }
  }

  lemma {:induction false} TotalZero<T>(ws: seq<T>, f: T -> nat)
    ensures Total(ws, f) == 0 <==> forall i :: 0 <= i < |ws| ==> f(ws[i]) == 0
  {
    if ws != [] { TotalZero(ws[1..], f); }
  }

  // ---------- what is counted ----------

  /** A worker still counted in curThreads. */
  ghost function Live(p: WorkerPc): nat { if p.Unborn? || p.LastUnlock? || p.Gone? then 0 else 1 }

  /** A worker that is awake, or signalled, and not yet committed to a task: it will look at the queue. */
  ghost function Ready(p: WorkerPc): nat {
    if p.Begin? || p.CheckExit? || p.TestQueue? || p == Asleep(true) || p.Woken? || p.Fetch? then 1 else 0
  }

  ghost predicate HasTask(p: WorkerPc) { p.Uncount? || p.Release? || p.Run? || p.Free_? }

  ghost predicate HasRequest(p: ClientPc) {
    p.Got? || p.Enter? || p.CheckFull? || p.CheckGone? || p.Alloc? || p.Insert? || p.Refuse? || p.Drop?
  }

  ghost function WorkerOwns(r: nat): WorkerPc -> nat { p => if HasTask(p) && p.t == r then 1 else 0 }

  ghost function NotRunYet(r: nat): WorkerPc -> nat { p => if HasTask(p) && !p.Free_? && p.t == r then 1 else 0 }

  ghost function ClientOwns(r: nat): ClientPc -> nat { p => if HasRequest(p) && p.r == r then 1 else 0 }

  // ---------- the invariants ----------

  ghost predicate LockInv(s: State) {
    && (forall w :: 0 <= w < |s.workers| ==> (WorkerHolds(s.workers[w]) <==> s.lock == ByWorker(w)))
    && (forall c :: 0 <= c < |s.clients| ==> (ClientHolds(s.clients[c]) <==> s.lock == ByClient(c)))
    && (OwnerHolds(s.owner) <==> s.lock == ByOwner)
    && (s.lock.ByWorker? ==> s.lock.w < |s.workers|)
    && (s.lock.ByClient? ==> s.lock.c < |s.clients|)
  }

  /** How far curTasks lags behind the queue: only inside the two critical sections that change both. */
  ghost function Lag(s: State): int
    requires LockInv(s)
  {
    match s.lock
    case ByClient(c) => if s.clients[c].Count? then 1 else 0
    case ByWorker(w) => if s.workers[w].Uncount? then -1 else 0
    case _ => 0
  }

  /** A task inserted but not yet signalled. */
  ghost function Unsignalled(s: State): nat
    requires LockInv(s)
  {
    match s.lock
    case ByClient(c) => if s.clients[c].Count? || s.clients[c].Signal? then 1 else 0
    case _ => 0
  }

  ghost predicate CountInv(s: State)
    requires LockInv(s)
  {
    && s.pool.curTasks + Lag(s) == |s.pool.queue| <= s.pool.maxTasks < WORD
    && (forall c :: 0 <= c < |s.clients| && (s.clients[c].CheckGone? || s.clients[c].Alloc? || s.clients[c].Insert?)
          ==> s.pool.curTasks < s.pool.maxTasks)
  }

  ghost predicate ThreadInv(s: State) {
    && s.pool.curThreads + (if s.owner.Created? then 1 else 0) == Total(s.workers, Live)
    && s.born <= |s.workers| < WORD
    && (forall w :: 0 <= w < |s.workers| ==> (s.workers[w].Unborn? <==> s.born <= w))
    && (!s.owner.Create? && !s.owner.Created? ==> s.born == |s.workers|)
  }

  ghost predicate NumInv(s: State) {
    match s.owner
    case ExitUnlock(num) => num == |s.workers|
    case LoopLock(num) => num == |s.workers|
    case ReadThreads(num) => num == |s.workers|
    case Broadcast(num, _) => num == |s.workers|
    case LoopUnlock(num, _) => num == |s.workers|
    case LoopTest(num, _) => num == |s.workers|
    case Join(num, i) => num == |s.workers| && i <= num
    case _ => true
  }

  ghost predicate Closing(o: OwnerPc) {
    o.ExitUnlock? || o.LoopLock? || o.ReadThreads? || o.Broadcast? || o.LoopUnlock? || o.LoopTest? || o.Join? || o.Done?
  }

  ghost predicate SawNone(o: OwnerPc) {
    match o
    case Broadcast(_, tmp) => tmp == 0
    case LoopUnlock(_, tmp) => tmp == 0
    case LoopTest(_, tmp) => tmp == 0
    case Join(_, _) => true
    case Done => true
    case _ => false
  }

  ghost predicate Leaving(p: WorkerPc) { p.Retire? || p.LastUnlock? || p.Gone? }

  ghost predicate ExitInv(s: State) {
    && (s.pool.bExit <==> Closing(s.owner))
    && (forall w :: 0 <= w < |s.workers| && Leaving(s.workers[w]) ==> s.pool.bExit && s.pool.queue == [])
    && (forall w :: 0 <= w < |s.workers| && s.workers[w].TestQueue? ==> !(s.pool.bExit && s.pool.queue == []))
    && (forall w :: 0 <= w < |s.workers| && s.workers[w].Fetch? ==> s.pool.queue != [])
    && (forall c :: 0 <= c < |s.clients| && (s.clients[c].Alloc? || s.clients[c].Insert?) ==> !s.pool.bExit)
    && (SawNone(s.owner) ==> forall w :: 0 <= w < |s.workers| ==> s.workers[w].Gone?)
    && (s.owner.LoopUnlock? || s.owner.LoopTest? ==>
          forall w :: 0 <= w < |s.workers| ==> s.workers[w] != Asleep(false))
  }

  ghost predicate WakeInv(s: State)
    requires LockInv(s)
  {
    Sleepers(s.workers) != {} ==> |s.pool.queue| <= Total(s.workers, Ready) + Unsignalled(s)
  }

  ghost predicate FifoInv(s: State) {
    s.log.accepted == s.log.taken + s.pool.queue
  }

  /** Task r was taken exactly as often as it ran or is about to run. */
  ghost predicate RanInv(s: State, r: nat) {
    multiset(s.log.ran)[r] + Total(s.workers, NotRunYet(r)) == multiset(s.log.taken)[r]
  }

  /** Request r, once allocated, is in exactly one place: with one thread, queued, freed or leaked. */
  ghost predicate OwnInv(s: State, r: nat) {
    Total(s.clients, ClientOwns(r)) + multiset(s.pool.queue)[r] + Total(s.workers, WorkerOwns(r))
    + multiset(s.log.freed)[r] + multiset(s.log.leaked)[r] == if r < s.log.issued then 1 else 0
  }

  /** A request is handed to the pool at most once, and then no dispatcher holds or loses it any more. */
  ghost predicate OnceInv(s: State, r: nat) {
    Total(s.clients, ClientOwns(r)) + multiset(s.log.accepted)[r] + multiset(s.log.leaked)[r]
    <= if r < s.log.issued then 1 else 0
  }

  ghost predicate Inv(s: State) {
    && LockInv(s) && CountInv(s) && ThreadInv(s) && NumInv(s) && ExitInv(s) && WakeInv(s) && FifoInv(s)
    && (forall r: nat :: RanInv(s, r))
    && (forall r: nat :: OwnInv(s, r))
    && (forall r: nat :: OnceInv(s, r))
  }

  // ---------- each step keeps each invariant ----------

  lemma InitOwn(threads: nat, dispatchers: nat, tasks: nat, r: nat)
    ensures var s := Init(threads, dispatchers, tasks); RanInv(s, r) && OwnInv(s, r) && OnceInv(s, r)
  {
    var s := Init(threads, dispatchers, tasks);
    TotalZero(s.workers, NotRunYet(r));
    TotalZero(s.workers, WorkerOwns(r));
    TotalZero(s.clients, ClientOwns(r));
  }

  lemma InitInv(threads: nat, dispatchers: nat, tasks: nat)
    requires ValidSize(threads, tasks)
    ensures Inv(Init(threads, dispatchers, tasks))
  {
    var s := Init(threads, dispatchers, tasks);
    TotalZero(s.workers, Live);
    assert Sleepers(s.workers) == {};
    forall r: nat ensures RanInv(s, r) && OwnInv(s, r) && OnceInv(s, r) { InitOwn(threads, dispatchers, tasks, r); }
  }

  lemma LockWorker(s: State, w: nat)
    requires LockInv(s) && Enabled(s, WorkerStep(w))
    ensures LockInv(DoWorker(s, w))
  {
  }

  lemma LockClient(s: State, c: nat, mallocOk: bool, wake: set<nat>)
    requires LockInv(s) && Enabled(s, ClientStep(c, mallocOk, wake))
    ensures LockInv(DoClient(s, c, mallocOk, wake))
  {
  }

  lemma LockOwner(s: State)
    requires LockInv(s) && ThreadInv(s) && Enabled(s, OwnerStep)
    ensures LockInv(DoOwner(s))
  {
  }

  lemma CountWorker(s: State, w: nat)
    requires LockInv(s) && CountInv(s) && Enabled(s, WorkerStep(w)) && LockInv(DoWorker(s, w))
    ensures CountInv(DoWorker(s, w))
  {
  }

  lemma CountClient(s: State, c: nat, mallocOk: bool, wake: set<nat>)
    requires LockInv(s) && CountInv(s) && Enabled(s, ClientStep(c, mallocOk, wake))
    requires LockInv(DoClient(s, c, mallocOk, wake))
    ensures CountInv(DoClient(s, c, mallocOk, wake))
  {
  }

  lemma CountOwner(s: State)
    requires LockInv(s) && CountInv(s) && Enabled(s, OwnerStep) && LockInv(DoOwner(s))
    ensures CountInv(DoOwner(s))
  {
  }

  lemma ThreadWorker(s: State, w: nat)
    requires ThreadInv(s) && ExitInv(s) && Enabled(s, WorkerStep(w))
    ensures ThreadInv(DoWorker(s, w))
  {
    TotalAt(s.workers, Live, w, DoWorker(s, w).workers[w]);
    if s.workers[w].Retire? { LiveBound(s.workers); }
  }

  lemma WakeCounts(ws: seq<WorkerPc>, who: set<nat>, r: nat)
    ensures Total(Wake(ws, who), Live) == Total(ws, Live)
    ensures Total(Wake(ws, who), NotRunYet(r)) == Total(ws, NotRunYet(r))
    ensures Total(Wake(ws, who), WorkerOwns(r)) == Total(ws, WorkerOwns(r))
  {
    WakeTotal(ws, who, Live);
    WakeTotal(ws, who, NotRunYet(r));
    WakeTotal(ws, who, WorkerOwns(r));
  }

  lemma WakeTotal(ws: seq<WorkerPc>, who: set<nat>, f: WorkerPc -> nat)
    requires f(Asleep(true)) == f(Asleep(false))
    ensures Total(Wake(ws, who), f) == Total(ws, f)
  {
    TotalMono(ws, Wake(ws, who), f);
    TotalMono(Wake(ws, who), ws, f);
  }

  lemma {:induction false} LiveBound(ws: seq<WorkerPc>)
    ensures Total(ws, Live) <= |ws|
    ensures (forall w :: 0 <= w < |ws| ==> Live(ws[w]) == 1) ==> Total(ws, Live) == |ws|
  {
    if ws != [] { LiveBound(ws[1..]); }
  }

  lemma ThreadClient(s: State, c: nat, mallocOk: bool, wake: set<nat>)
    requires ThreadInv(s) && NumInv(s) && Enabled(s, ClientStep(c, mallocOk, wake))
    ensures ThreadInv(DoClient(s, c, mallocOk, wake)) && NumInv(DoClient(s, c, mallocOk, wake))
  {
    if s.clients[c].Signal? { WakeCounts(s.workers, wake, 0); }
  }

  lemma ThreadOwner(s: State)
    requires ThreadInv(s) && Enabled(s, OwnerStep)
    ensures ThreadInv(DoOwner(s))
  {
    match s.owner {
      case Create =>
        if s.born < |s.workers| { TotalAt(s.workers, Live, s.born, Begin); }
      case Created => LiveBound(s.workers);
      case Broadcast(_, _) => WakeCounts(s.workers, Sleepers(s.workers), 0);
      case _ =>
    }
  }

  lemma NumOwner(s: State)
    requires ThreadInv(s) && NumInv(s) && ExitInv(s) && Enabled(s, OwnerStep)
    ensures NumInv(DoOwner(s))
  {
    if s.owner.SetExit? { LiveBound(s.workers); }
  }

  lemma ExitWorker(s: State, w: nat)
    requires LockInv(s) && ExitInv(s) && Enabled(s, WorkerStep(w))
    ensures ExitInv(DoWorker(s, w))
  {
  }

  lemma ExitClient(s: State, c: nat, mallocOk: bool, wake: set<nat>)
    requires LockInv(s) && ExitInv(s) && Enabled(s, ClientStep(c, mallocOk, wake))
    ensures ExitInv(DoClient(s, c, mallocOk, wake))
  {
  }

  lemma ExitOwner(s: State)
    requires LockInv(s) && ThreadInv(s) && ExitInv(s) && Enabled(s, OwnerStep)
    ensures ExitInv(DoOwner(s))
  {
    if s.owner.ReadThreads? { TotalZero(s.workers, Live); }
  }

  lemma WakeWorker(s: State, w: nat)
    requires LockInv(s) && WakeInv(s) && ExitInv(s) && Enabled(s, WorkerStep(w)) && LockInv(DoWorker(s, w))
    ensures WakeInv(DoWorker(s, w))
  {
    var t := DoWorker(s, w);
    TotalAt(s.workers, Ready, w, t.workers[w]);
    if v :| v in Sleepers(t.workers) {
      if v != w { assert v in Sleepers(s.workers); }
    }
  }

  lemma WakeClient(s: State, c: nat, mallocOk: bool, wake: set<nat>)
    requires LockInv(s) && WakeInv(s) && Enabled(s, ClientStep(c, mallocOk, wake))
    requires LockInv(DoClient(s, c, mallocOk, wake))
    ensures WakeInv(DoClient(s, c, mallocOk, wake))
  {
    var t := DoClient(s, c, mallocOk, wake);
    if s.clients[c].Signal? {
      if v :| v in Sleepers(t.workers) {
        assert v in Sleepers(s.workers);
        var u :| u in wake;
        assert Ready(s.workers[u]) < Ready(t.workers[u]);
        TotalMono(t.workers, s.workers, Ready);
      }
    }
  }

  lemma WakeOwner(s: State)
    requires LockInv(s) && ThreadInv(s) && WakeInv(s) && Enabled(s, OwnerStep) && LockInv(DoOwner(s))
    ensures WakeInv(DoOwner(s))
  {
    var t := DoOwner(s);
    if s.owner.Create? && s.born < |s.workers| { TotalAt(s.workers, Ready, s.born, Begin); }
    if v :| v in Sleepers(t.workers) { assert v in Sleepers(s.workers); }
  }

  lemma FifoWorker(s: State, w: nat)
    requires FifoInv(s) && Enabled(s, WorkerStep(w))
    ensures FifoInv(DoWorker(s, w))
  {
  }

  lemma RanWorker(s: State, w: nat, r: nat)
    requires RanInv(s, r) && Enabled(s, WorkerStep(w))
    ensures RanInv(DoWorker(s, w), r)
  {
    if s.workers[w].Fetch? && s.pool.queue != [] {
      RanFetch(s, w, r);
    } else if s.workers[w].Run? {
      RanRun(s, w, r);
    } else {
      TotalAt(s.workers, NotRunYet(r), w, DoWorker(s, w).workers[w]);
    }
  }

  lemma RanFetch(s: State, w: nat, r: nat)
    requires RanInv(s, r) && Enabled(s, WorkerStep(w)) && s.workers[w].Fetch? && s.pool.queue != []
    ensures RanInv(DoWorker(s, w), r)
  {
    TotalAt(s.workers, NotRunYet(r), w, Uncount(s.pool.queue[0]));
    OneMore(s.log.taken, s.pool.queue[0], r);
  }

  lemma RanRun(s: State, w: nat, r: nat)
    requires RanInv(s, r) && Enabled(s, WorkerStep(w)) && s.workers[w].Run?
    ensures RanInv(DoWorker(s, w), r)
  {
    TotalAt(s.workers, NotRunYet(r), w, Free_(s.workers[w].t));
    OneMore(s.log.ran, s.workers[w].t, r);
  }

  lemma OwnWorker(s: State, w: nat, r: nat)
    requires OwnInv(s, r) && Enabled(s, WorkerStep(w))
    ensures OwnInv(DoWorker(s, w), r)
  {
    if s.workers[w].Fetch? && s.pool.queue != [] {
      OwnFetch(s, w, r);
    } else if s.workers[w].Free_? {
      OwnFree(s, w, r);
    } else {
      TotalAt(s.workers, WorkerOwns(r), w, DoWorker(s, w).workers[w]);
    }
  }

  lemma OwnFetch(s: State, w: nat, r: nat)
    requires OwnInv(s, r) && Enabled(s, WorkerStep(w)) && s.workers[w].Fetch? && s.pool.queue != []
    ensures OwnInv(DoWorker(s, w), r)
  {
    TotalAt(s.workers, WorkerOwns(r), w, Uncount(s.pool.queue[0]));
    FirstOut(s.pool.queue, r);
  }

  lemma OwnFree(s: State, w: nat, r: nat)
    requires OwnInv(s, r) && Enabled(s, WorkerStep(w)) && s.workers[w].Free_?
    ensures OwnInv(DoWorker(s, w), r)
  {
    TotalAt(s.workers, WorkerOwns(r), w, Begin);
    OneMore(s.log.freed, s.workers[w].t, r);
  }

  lemma FirstOut(q: seq<nat>, r: nat)
    requires q != []
    ensures multiset(q)[r] == multiset(q[1..])[r] + if q[0] == r then 1 else 0
  {
    assert q == [q[0]] + q[1..];
  }

  lemma OneMore(q: seq<nat>, t: nat, r: nat)
    ensures multiset(q + [t])[r] == multiset(q)[r] + if t == r then 1 else 0
  {
  }

  lemma FifoClient(s: State, c: nat, mallocOk: bool, wake: set<nat>, r: nat)
    requires FifoInv(s) && RanInv(s, r) && Enabled(s, ClientStep(c, mallocOk, wake))
    ensures FifoInv(DoClient(s, c, mallocOk, wake)) && RanInv(DoClient(s, c, mallocOk, wake), r)
  {
    if s.clients[c].Signal? { WakeCounts(s.workers, wake, r); }
  }

  lemma OwnClient(s: State, c: nat, mallocOk: bool, wake: set<nat>, r: nat)
    requires OwnInv(s, r) && Enabled(s, ClientStep(c, mallocOk, wake))
    ensures OwnInv(DoClient(s, c, mallocOk, wake), r)
  {
    if s.clients[c].Signal? {
      OwnSignal(s, c, mallocOk, wake, r);
    } else if s.clients[c].Insert? {
      OwnInsert(s, c, mallocOk, wake, r);
    } else if s.clients[c].Drop? {
      OwnDrop(s, c, mallocOk, wake, r);
    } else {
      TotalAt(s.clients, ClientOwns(r), c, DoClient(s, c, mallocOk, wake).clients[c]);
    }
  }

  lemma OwnSignal(s: State, c: nat, mallocOk: bool, wake: set<nat>, r: nat)
    requires OwnInv(s, r) && Enabled(s, ClientStep(c, mallocOk, wake)) && s.clients[c].Signal?
    ensures OwnInv(DoClient(s, c, mallocOk, wake), r)
  {
    var t := DoClient(s, c, mallocOk, wake);
    assert Total(t.clients, ClientOwns(r)) == Total(s.clients, ClientOwns(r)) by {
      TotalAt(s.clients, ClientOwns(r), c, Leave);
    }
    assert Total(t.workers, WorkerOwns(r)) == Total(s.workers, WorkerOwns(r)) by { WakeCounts(s.workers, wake, r); }
  }

  lemma OwnInsert(s: State, c: nat, mallocOk: bool, wake: set<nat>, r: nat)
    requires OwnInv(s, r) && Enabled(s, ClientStep(c, mallocOk, wake)) && s.clients[c].Insert?
    ensures OwnInv(DoClient(s, c, mallocOk, wake), r)
  {
    TotalAt(s.clients, ClientOwns(r), c, Count(s.clients[c].r));
    OneMore(s.pool.queue, s.clients[c].r, r);
  }

  lemma OwnDrop(s: State, c: nat, mallocOk: bool, wake: set<nat>, r: nat)
    requires OwnInv(s, r) && Enabled(s, ClientStep(c, mallocOk, wake)) && s.clients[c].Drop?
    ensures OwnInv(DoClient(s, c, mallocOk, wake), r)
  {
    TotalAt(s.clients, ClientOwns(r), c, Idle);
    OneMore(s.log.freed, s.clients[c].r, r);
  }

  lemma OnceClient(s: State, c: nat, mallocOk: bool, wake: set<nat>, r: nat)
    requires OnceInv(s, r) && Enabled(s, ClientStep(c, mallocOk, wake))
    ensures OnceInv(DoClient(s, c, mallocOk, wake), r)
  {
    TotalAt(s.clients, ClientOwns(r), c, DoClient(s, c, mallocOk, wake).clients[c]);
  }

  lemma FifoOwnOwner(s: State, r: nat)
    requires ThreadInv(s) && FifoInv(s) && RanInv(s, r) && OwnInv(s, r) && Enabled(s, OwnerStep)
    ensures var t := DoOwner(s); FifoInv(t) && RanInv(t, r) && OwnInv(t, r)
  {
    if s.owner.Create? && s.born < |s.workers| {
      TotalAt(s.workers, NotRunYet(r), s.born, Begin);
      TotalAt(s.workers, WorkerOwns(r), s.born, Begin);
    } else if s.owner.Broadcast? {
      WakeCounts(s.workers, Sleepers(s.workers), r);
    }
  }

  lemma InvWorker(s: State, w: nat)
    requires Inv(s) && Enabled(s, WorkerStep(w))
    ensures Inv(DoWorker(s, w))
  {
    LockWorker(s, w);
    CountWorker(s, w);
    ThreadWorker(s, w);
    ExitWorker(s, w);
    WakeWorker(s, w);
    FifoWorker(s, w);
    forall r: nat ensures RanInv(DoWorker(s, w), r) { RanWorker(s, w, r); }
    forall r: nat ensures OwnInv(DoWorker(s, w), r) { OwnWorker(s, w, r); }
    forall r: nat ensures OnceInv(DoWorker(s, w), r) { assert OnceInv(s, r); }
  }

  lemma InvClient(s: State, c: nat, mallocOk: bool, wake: set<nat>)
    requires Inv(s) && Enabled(s, ClientStep(c, mallocOk, wake))
    ensures Inv(DoClient(s, c, mallocOk, wake))
  {
    LockClient(s, c, mallocOk, wake);
    CountClient(s, c, mallocOk, wake);
    ThreadClient(s, c, mallocOk, wake);
    ExitClient(s, c, mallocOk, wake);
    WakeClient(s, c, mallocOk, wake);
    FifoClient(s, c, mallocOk, wake, 0);
    forall r: nat ensures RanInv(DoClient(s, c, mallocOk, wake), r) { FifoClient(s, c, mallocOk, wake, r); }
    forall r: nat ensures OwnInv(DoClient(s, c, mallocOk, wake), r) { OwnClient(s, c, mallocOk, wake, r); }
    forall r: nat ensures OnceInv(DoClient(s, c, mallocOk, wake), r) { OnceClient(s, c, mallocOk, wake, r); }
  }

  lemma InvOwner(s: State)
    requires Inv(s) && Enabled(s, OwnerStep)
    ensures Inv(DoOwner(s))
  {
    LockOwner(s);
    CountOwner(s);
    ThreadOwner(s);
    NumOwner(s);
    ExitOwner(s);
    WakeOwner(s);
    forall r: nat ensures RanInv(DoOwner(s), r) && OwnInv(DoOwner(s), r) && FifoInv(DoOwner(s)) {
      FifoOwnOwner(s, r);
    }
    forall r: nat ensures OnceInv(DoOwner(s), r) { assert OnceInv(s, r); }
  }

  lemma OwnSpurious(s: State, w: nat, r: nat)
    requires RanInv(s, r) && OwnInv(s, r) && OnceInv(s, r) && Enabled(s, SpuriousWake(w))
    ensures var t := Next(s, SpuriousWake(w)); RanInv(t, r) && OwnInv(t, r) && OnceInv(t, r)
  {
    TotalAt(s.workers, NotRunYet(r), w, Asleep(true));
    TotalAt(s.workers, WorkerOwns(r), w, Asleep(true));
  }

  lemma FrameSpurious(s: State, w: nat)
    requires LockInv(s) && CountInv(s) && ThreadInv(s) && ExitInv(s) && Enabled(s, SpuriousWake(w))
    ensures var t := Next(s, SpuriousWake(w)); LockInv(t) && CountInv(t) && ThreadInv(t) && ExitInv(t)
  {
    TotalAt(s.workers, Live, w, Asleep(true));
  }

  lemma WakeSpurious(s: State, w: nat)
    requires LockInv(s) && WakeInv(s) && Enabled(s, SpuriousWake(w)) && LockInv(Next(s, SpuriousWake(w)))
    ensures WakeInv(Next(s, SpuriousWake(w)))
  {
    TotalAt(s.workers, Ready, w, Asleep(true));
    assert w in Sleepers(s.workers);
  }

  lemma InvSpurious(s: State, w: nat)
    requires Inv(s) && Enabled(s, SpuriousWake(w))
    ensures Inv(Next(s, SpuriousWake(w)))
  {
    var t := Next(s, SpuriousWake(w));
    FrameSpurious(s, w);
    WakeSpurious(s, w);
    forall r: nat ensures RanInv(t, r) && OwnInv(t, r) && OnceInv(t, r) {
      assert RanInv(s, r) && OwnInv(s, r) && OnceInv(s, r);
      OwnSpurious(s, w, r);
    }
  }

  lemma OwnDispatch(s: State, step: Step, r: nat)
    requires step.Receive? || step.FpgaFault? || step.ClockUnusable? || step.CallAdd?
    requires RanInv(s, r) && OwnInv(s, r) && OnceInv(s, r) && Enabled(s, step)
    ensures var t := Dispatch(s, step); RanInv(t, r) && OwnInv(t, r) && OnceInv(t, r)
  {
    TotalAt(s.clients, ClientOwns(r), step.c, Dispatch(s, step).clients[step.c]);
  }

  lemma FrameDispatch(s: State, step: Step)
    requires step.Receive? || step.FpgaFault? || step.ClockUnusable? || step.CallAdd?
    requires LockInv(s) && CountInv(s) && ExitInv(s) && Enabled(s, step)
    ensures LockInv(Dispatch(s, step)) && CountInv(Dispatch(s, step)) && ExitInv(Dispatch(s, step))
    ensures WakeInv(s) ==> WakeInv(Dispatch(s, step))
  {
    var t := Dispatch(s, step);
    assert t.workers == s.workers && t.lock == s.lock && t.pool == s.pool && t.owner == s.owner;
    assert forall c :: 0 <= c < |s.clients| && c != step.c ==> t.clients[c] == s.clients[c];
    assert !ClientHolds(s.clients[step.c]) && !ClientHolds(t.clients[step.c]);
  }

  lemma InvDispatch(s: State, step: Step)
    requires step.Receive? || step.FpgaFault? || step.ClockUnusable? || step.CallAdd?
    requires Inv(s) && Enabled(s, step)
    ensures Inv(Dispatch(s, step))
  {
    var t := Dispatch(s, step);
    FrameDispatch(s, step);
    forall r: nat ensures RanInv(t, r) && OwnInv(t, r) && OnceInv(t, r) {
      assert RanInv(s, r) && OwnInv(s, r) && OnceInv(s, r);
      OwnDispatch(s, step, r);
    }
  }

  lemma InvStep(s: State, step: Step)
    requires Inv(s) && Enabled(s, step)
    ensures Inv(Next(s, step))
  {
    match step {
      case WorkerStep(w) => InvWorker(s, w);
      case ClientStep(c, mallocOk, wake) => InvClient(s, c, mallocOk, wake);
      case OwnerStep => InvOwner(s);
      case SpuriousWake(w) => InvSpurious(s, w);
      case CallDestroy => InvCallDestroy(s);
      case _ => InvDispatch(s, step);
    }
  }

  lemma InvCallDestroy(s: State)
    requires Inv(s) && Enabled(s, CallDestroy)
    ensures Inv(s.(owner := ExitLock))
  {
    var t := s.(owner := ExitLock);
    forall r: nat ensures RanInv(t, r) && OwnInv(t, r) && OnceInv(t, r) {
      assert RanInv(s, r) && OwnInv(s, r) && OnceInv(s, r);
    }
  }

  lemma {:induction false} InvRun(s: State, run: seq<Step>)
    requires Inv(s) && ValidRun(s, run)
    ensures Inv(After(s, run))
    decreases |run|
  {
    if run != [] {
      InvStep(s, run[0]);
      InvRun(Next(s, run[0]), run[1..]);
    }
  }
}
