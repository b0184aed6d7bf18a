/**
  The singly-linked tail queue macros, at pointer level, and the two critical sections of the worker pool that
  use them. stqh_last is a pointer to a pointer: it designates either the head's own first field or some node's
  next field.
 */
module TailQueue {
  import opened WorkerPool

  class Node {
    var task: nat
    var next: Node?

    constructor (task: nat)
      ensures this.task == task
    {
      this.task := task;
      next := null;
    }
  }

  /** The node after position i in a chain, null at its end. */
  ghost function Follower(nodes: seq<Node>, i: nat): Node? {
    if i + 1 < |nodes| then nodes[i + 1] else null
  }

  class Queue {
    var first: Node?
    var last: Node?            // the node whose next field stqh_last designates; null for the first field itself
    ghost var nodes: seq<Node> // the chain from first on

    ghost predicate Valid()
      reads this, nodes
    {
      && (forall i, j :: 0 <= i < j < |nodes| ==> nodes[i] != nodes[j])
      && (forall i :: 0 <= i < |nodes| ==> nodes[i].next == Follower(nodes, i))
      && (if nodes == [] then first == null && last == null else first == nodes[0] && last == nodes[|nodes| - 1])
    }

    ghost function Contents(): (s: seq<nat>)
      reads this, nodes
      ensures |s| == |nodes| && forall i :: 0 <= i < |nodes| ==> s[i] == nodes[i].task
    {
      seq(|nodes|, i requires 0 <= i < |nodes| reads this, nodes => nodes[i].task)
    }

    constructor ()
      ensures Valid() && nodes == []
    {
      first := null;
      last := null;
      nodes := [];
    }

    /** STAILQ_EMPTY. */
    predicate Empty()
      reads this
    {
      first == null
    }

    /** STAILQ_INSERT_TAIL: the assignment through stqh_last writes the head or the last node. */
    method InsertTail(elm: Node)
      requires Valid() && elm !in nodes
      modifies this, elm`next, nodes`next
      ensures Valid() && nodes == old(nodes) + [elm]
      ensures Contents() == old(Contents()) + [elm.task]
    {
      Link(elm);
      nodes := nodes + [elm];
    }

    /** The three assignments of the macro. */
    method Link(elm: Node)
      requires Valid() && elm !in nodes
      modifies this`first, this`last, elm`next, nodes`next
      ensures elm.next == null && last == elm
      ensures if nodes == [] then first == elm else first == old(first) && nodes[|nodes| - 1].next == elm
      ensures forall i :: 0 <= i < |nodes| - 1 ==> nodes[i].next == old(nodes[i].next)
    {
      elm.next := null;
      if last == null { first := elm; } else { last.next := elm; }
      last := elm;
    }

    /** STAILQ_REMOVE_HEAD: the removed node keeps its stale next field. */
    method RemoveHead() returns (elm: Node)
      requires Valid() && nodes != []
      modifies this
      ensures Valid() && elm == old(nodes[0]) && nodes == old(nodes)[1..]
      ensures Contents() == old(Contents())[1..] && elm.task == old(Contents())[0]
    {
      elm := first;
      assert nodes[0].next == Follower(nodes, 0);
      first := first.next;
      if first == null { last := null; }
      nodes := nodes[1..];
      assert forall i :: 0 <= i < |nodes| ==>
        nodes[i] == old(nodes)[i + 1] && Follower(nodes, i) == Follower(old(nodes), i + 1);
    }
  }

  /** struct threadpool with its queue as the linked structure it is. */
  class PoolData {
    var tq: Queue
    var curTasks: nat
    var maxTasks: nat
    var bExit: bool
    var curThreads: nat

    ghost predicate Valid()
      reads this, tq, tq.nodes
    {
      tq.Valid()
    }

    /** The value the step system works on. */
    ghost function View(): Pool
      reads this, tq, tq.nodes
    {
      Pool(tq.Contents(), curTasks, maxTasks, bExit, curThreads)
    }

    constructor (tasks: nat)
      ensures Valid() && fresh(tq) && tq.Contents() == []
      ensures maxTasks == tasks && curTasks == 0 && !bExit && curThreads == 0
    {
      tq := new Queue();
      curTasks := 0;
      maxTasks := tasks;
      bExit := false;
      curThreads := 0;
    }

    /** tpAddTask between lock and signal. */
    method AddLocked(args: nat, mallocOk: bool) returns (ok: bool)
      requires Valid()
      modifies this, tq, tq.nodes`next
      ensures Valid() && tq == old(tq)
      ensures ok <==> old(curTasks) < old(maxTasks) && !old(bExit) && mallocOk
      ensures View() == if ok then Added(old(View()), args) else old(View())
    {
      if curTasks >= maxTasks { return false; }
      if bExit { return false; }
      if !mallocOk { return false; }
      var taskp := new Node(args);
      ghost var queue := tq.Contents();
      assert queue == old(tq.Contents()) && taskp !in tq.nodes;
      tq.InsertTail(taskp);
      assert tq.Contents() == queue + [args];
      curTasks := Inc32(curTasks);
      assert tq.Contents() == queue + [args];
      return true;
    }

    /** The worker loop between the queue test and the unlock. */
    method TakeLocked() returns (args: nat)
      requires Valid() && !tq.Empty()
      modifies this, tq
      ensures Valid() && tq == old(tq) && old(tq.Contents()) != [] && args == old(tq.Contents())[0]
      ensures View() == Taken(old(View()))
    {
      ghost var queue := tq.Contents();
      args := TakeHead();
      curTasks := Dec32(curTasks);
      assert tq.Contents() == queue[1..];
    }

    /** The task of the node that STAILQ_REMOVE_HEAD takes off. */
    method TakeHead() returns (args: nat)
      requires Valid() && !tq.Empty()
      modifies tq
      ensures Valid() && old(tq.Contents()) != [] && args == old(tq.Contents())[0]
      ensures tq.Contents() == old(tq.Contents())[1..]
    {
      var taskp := tq.RemoveHead();
      args := taskp.task;
    }
  }

  /** tpCreate up to its threads: the sizes it accepts, and the pool it sets up for them. */
  method Create(threads: nat, tasks: nat) returns (pool: PoolData?)
    ensures pool != null <==> 1 <= threads <= 32 && 1 <= tasks <= 2048
    ensures pool != null ==> fresh(pool) && pool.Valid() && pool.tq.Contents() == [] && pool.maxTasks == tasks
    ensures pool != null ==> pool.View() == Init(threads, 0, tasks).pool
  {
    if !ValidSize(threads, tasks) { return null; }
    pool := new PoolData(tasks);
  }

  /** The statements of a dispatcher from CheckFull up to its signal or refusal, in the step system. */
  ghost function AddSection(r: nat, mallocOk: bool, pool: Pool, log: Log): Move<ClientPc> {
    var full := ClientMove(CheckFull(r), 0, mallocOk, ByClient(0), pool, log);
    if full.pc.Refuse? then full else
    var gone := ClientMove(full.pc, 0, mallocOk, full.lock, full.pool, full.log);
    if gone.pc.Refuse? then gone else
    var alloc := ClientMove(gone.pc, 0, mallocOk, gone.lock, gone.pool, gone.log);
    if alloc.pc.Refuse? then alloc else
    var ins := ClientMove(alloc.pc, 0, mallocOk, alloc.lock, alloc.pool, alloc.log);
    ClientMove(ins.pc, 0, mallocOk, ins.lock, ins.pool, ins.log)
  }

  ghost predicate AddSucceeds(pool: Pool, mallocOk: bool) {
    pool.curTasks < pool.maxTasks && !pool.bExit && mallocOk
  }

  ghost function Added(pool: Pool, r: nat): Pool {
    pool.(queue := pool.queue + [r], curTasks := Inc32(pool.curTasks))
  }

  /** What adding and taking change, written out: the queue at one end, and the 32-bit counter. */
  lemma SectionsAre(pool: Pool, r: nat)
    ensures Added(pool, r) == pool.(queue := pool.queue + [r], curTasks := (pool.curTasks + 1) % 0x1_0000_0000)
    ensures pool.queue != [] ==>
      Taken(pool) == pool.(queue := pool.queue[1..], curTasks := (pool.curTasks - 1) % 0x1_0000_0000)
  {
    CountsBack(pool.curTasks);
  }

  lemma CountsBack(n: nat)
    ensures Dec32(n) == (n - 1) % 0x1_0000_0000
  {
  }

  /** AddLocked does to the pool what the statements of the step system do, and ends where they end. */
  lemma AddRefines(r: nat, mallocOk: bool, pool: Pool, log: Log)
    ensures var m := AddSection(r, mallocOk, pool, log);
            if AddSucceeds(pool, mallocOk)
            then m.pc == Signal(r) && m.pool == Added(pool, r) && m.log == log.(accepted := log.accepted + [r])
            else m.pc == Refuse(r) && m.pool == pool && m.log == log
  {
  }

  ghost function Taken(pool: Pool): Pool
    requires pool.queue != []
  {
    pool.(queue := pool.queue[1..], curTasks := Dec32(pool.curTasks))
  }

  /** TakeLocked does to the pool what the statements of the step system do, with the same task. */
  lemma TakeRefines(pool: Pool, log: Log)
    requires pool.queue != []
    ensures TakeSection(pool, log).pc == Release(pool.queue[0]) && TakeSection(pool, log).pool == Taken(pool)
  {
  }

  /** The statements of a worker from Fetch up to its unlock, in the step system. */
  ghost function TakeSection(pool: Pool, log: Log): Move<WorkerPc>
    requires pool.queue != []
  {
    var fetch := WorkerMove(Fetch, 0, ByWorker(0), pool, log);
    WorkerMove(fetch.pc, 0, fetch.lock, fetch.pool, fetch.log)
  }
}
