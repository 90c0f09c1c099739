/**
  The wave driver of tools/axbench.c: the BSP feeds the tasks of one wave to the
  pool, retries what the pool refuses, polls, and gives up only when a watchdog
  sees no completion for a minute.
 */
module WaveDriver {
  import opened Sequences
  import opened TaskPool
  import opened PoolObject

  const WATCHDOG_STALL_US: nat := 60_000_000

  /** What the driver believes: `available` may report any number at all. */
  method ReportedAvailable<V>(pool: Pool<V>, ghost w: Wave<V>) returns (count: nat)
    requires pool.Valid()
    modifies pool`slots, pool`mem, pool`finished, pool`log
    ensures pool.Valid() && |pool.mem| == |old(pool.mem)|
    ensures old(Tracks(w, pool.St())) ==> Tracks(w, pool.St())
  {
    count := pool.Available(w);
    if * {
      count :| 0 <= count;
    }
  }

  /** A submit that the pool may refuse for any reason, room or no room. */
  method TrySubmit<V>(pool: Pool<V>, t: Task<V>, ghost w: Wave<V>) returns (ok: bool)
    requires pool.Valid() && InBounds(t.stores, |pool.mem|) && !pool.singleCore
    modifies pool`slots, pool`mem, pool`nextId, pool`accepted, pool`finished, pool`collected, pool`log
    ensures pool.Valid() && |pool.mem| == |old(pool.mem)|
    ensures pool.accepted == if ok then old(pool.accepted) + [t] else old(pool.accepted)
    ensures |pool.collected| == |old(pool.collected)|
    ensures old(Tracks(w, pool.St())) && InScope(t, w.scope) ==> Tracks(w, pool.St())
  {
    if * {
      pool.Interference(w);
      ok := false;
    } else {
      ok := pool.Submit(t, w);
    }
  }

  /** The state of a wave in progress: what has been accepted and counted since it began. */
  ghost predicate Progress<V>(pool: Pool<V>, w: Wave<V>, tasks: seq<Task<V>>, submitted: nat, done: nat)
    reads pool
  {
    && pool.Valid()
    && |pool.mem| == |w.start.mem|
    && submitted <= |tasks|
    && pool.accepted == w.start.accepted + tasks[..submitted]
    && |pool.collected| == |w.start.collected| + done
    && (Idle(w.start) ==> Tracks(w, pool.St()))
  }

  /** Submit tasks until the reported slots run out or a submit is refused. */
  method FillSlots<V>(pool: Pool<V>, tasks: seq<Task<V>>, start: nat, free: nat, ghost done: nat, ghost w: Wave<V>)
    returns (submitted: nat)
    requires Progress(pool, w, tasks, start, done) && !pool.singleCore
    requires TasksInBounds(tasks, |pool.mem|) && forall k :: 0 <= k < |tasks| ==> InScope(tasks[k], w.scope)
    modifies pool`slots, pool`mem, pool`nextId, pool`accepted, pool`finished, pool`collected, pool`log
    ensures Progress(pool, w, tasks, submitted, done) && start <= submitted
  {
    submitted := start;
    var freeSlots := free;
    while submitted < |tasks| && freeSlots > 0
      invariant start <= submitted
      invariant Progress(pool, w, tasks, submitted, done)
    {
      var ok := TrySubmit(pool, tasks[submitted], w);
      if !ok {
        break;
      }
      assert tasks[..submitted + 1] == tasks[..submitted] + [tasks[submitted]];
      submitted := submitted + 1;
      freeSlots := freeSlots - 1;
    }
  }

  /** From an idle start no poll can have counted more than was submitted. */
  lemma DoneWithinSubmitted<V>(pool: Pool<V>, w: Wave<V>, tasks: seq<Task<V>>, submitted: nat, done: nat)
    requires Progress(pool, w, tasks, submitted, done)
    requires Conserved(w.start)
    ensures Idle(w.start) ==> done <= submitted <= |tasks|
    ensures Idle(w.start) && done == submitted ==> Idle(pool.St())
  {
    IdleIffAllCollected(w.start);
    IdleIffAllCollected(pool.St());
  }

  /**
    One wave. Whatever `available` reports, whichever submits are refused and
    however the workers interleave, a true return from an idle start means every
    task was accepted once and in order, ran exactly once, and the pool is idle
    again; a false return means more than 60 s passed without a completion.
   */
  method DriveWave<V>(pool: Pool<V>, tasks: seq<Task<V>>) returns (ok: bool, ghost submitted: nat, ghost done: nat)
    requires pool.Valid() && TasksInBounds(tasks, |pool.mem|)
    modifies pool
    ensures pool.Valid() && |pool.mem| == |old(pool.mem)|
    // conservation, idle or not
    ensures submitted <= |tasks| && pool.accepted == old(pool.accepted) + tasks[..submitted]
    ensures |pool.collected| == |old(pool.collected)| + done
    ensures ok ==> done >= |tasks|
    // exactness from an idle start
    ensures old(Idle(pool.St())) ==> done <= submitted
    ensures old(Idle(pool.St())) && ok ==> done == submitted == |tasks| && Idle(pool.St())
    ensures old(Idle(pool.St())) && ok ==> old(pool.finished) <= pool.finished
    ensures old(Idle(pool.St())) && ok ==> NoRepeats(pool.finished[|old(pool.finished)|..])
    ensures old(Idle(pool.St())) && ok ==> forall k ::
              k in pool.finished[|old(pool.finished)|..] <==> |old(pool.accepted)| <= k < |old(pool.accepted)| + |tasks|
    ensures old(Idle(pool.St())) && ok && Coherent(Range(Serial(tasks))) ==>
              InBounds(Serial(tasks), |old(pool.mem)|) && pool.mem == Replay(old(pool.mem), Serial(tasks))
    // the watchdog
    ensures !ok ==> pool.clock > old(pool.clock) + WATCHDOG_STALL_US && pool.clock > pool.lastCollect + WATCHDOG_STALL_US
  {
    ghost var w := Wave(pool.St(), Range(Serial(tasks)));
    if Idle(w.start) {
      IdleTracks(w);
    }
    forall k | 0 <= k < |tasks|
      ensures InScope(tasks[k], w.scope)
    {
      TaskInScope(tasks, k);
    }
    assert tasks[..0] == [];
    ok, submitted, done := DriveLoop(pool, tasks, w);
    DoneWithinSubmitted(pool, w, tasks, submitted, done);
    if Idle(w.start) && ok {
      assert tasks[..|tasks|] == tasks;
      WaveRunsEachOnce(w, pool.St());
      if Coherent(w.scope) {
        assert Serial(tasks) + [] == Serial(tasks);
        WaveIsSerial(w, pool.St(), tasks, []);
      }
    }
  }

  lemma TaskInScope<V>(tasks: seq<Task<V>>, k: nat)
    requires k < |tasks|
    ensures InScope(tasks[k], Range(Serial(tasks)))
  {
    forall x | x in tasks[k].stores
      ensures x in Serial(tasks)
    {
      SerialMembers(tasks, x);
    }
  }

  /** The watchdog has been fed within its period. */
  ghost predicate OnWatch<V>(pool: Pool<V>, lastProgress: nat)
    reads pool
  {
    pool.lastCollect <= lastProgress <= pool.clock <= lastProgress + WATCHDOG_STALL_US
  }

  /** Poll once and look at the clock: what each of the program's waiting loops does in a turn. */
  method PollTurn<V>(pool: Pool<V>, ghost tasks: seq<Task<V>>, ghost submitted: nat, done: nat, lastProgress: nat, ghost w: Wave<V>)
    returns (done': nat, lastProgress': nat, stalled: bool)
    requires Progress(pool, w, tasks, submitted, done) && OnWatch(pool, lastProgress)
    modifies pool`slots, pool`mem, pool`finished, pool`collected, pool`log, pool`lastCollect, pool`clock
    ensures Progress(pool, w, tasks, submitted, done') && old(pool.log) <= pool.log
    ensures pool.clock > old(pool.clock) && lastProgress <= lastProgress'
    ensures !stalled ==> OnWatch(pool, lastProgress') && (done' > done || (done' == done && lastProgress' == lastProgress))
    ensures stalled ==> pool.clock > lastProgress + WATCHDOG_STALL_US && pool.clock > pool.lastCollect + WATCHDOG_STALL_US
  {
    var freed := pool.Poll(w);
    done', lastProgress', stalled := done + freed, lastProgress, false;
    var now := pool.Now();
    if freed > 0 {
      lastProgress' := now;
    } else if now - lastProgress > WATCHDOG_STALL_US {
      stalled := true;
    }
  }

  /** A turn on a single-core pool: the submit runs the task. */
  method InlineTurn<V>(pool: Pool<V>, tasks: seq<Task<V>>, submitted: nat, ghost w: Wave<V>)
    requires Progress(pool, w, tasks, submitted, submitted) && pool.singleCore && submitted < |tasks|
    requires TasksInBounds(tasks, |pool.mem|) && forall k :: 0 <= k < |tasks| ==> InScope(tasks[k], w.scope)
    modifies pool`slots, pool`mem, pool`nextId, pool`accepted, pool`finished, pool`collected, pool`log
    ensures Progress(pool, w, tasks, submitted + 1, submitted + 1)
  {
    var accepted := pool.Submit(tasks[submitted], w);
    assert tasks[..submitted + 1] == tasks[..submitted] + [tasks[submitted]];
  }

  method DriveLoop<V>(pool: Pool<V>, tasks: seq<Task<V>>, ghost w: Wave<V>)
    returns (ok: bool, ghost submittedOut: nat, ghost doneOut: nat)
    requires Progress(pool, w, tasks, 0, 0) && Conserved(w.start)
    requires TasksInBounds(tasks, |pool.mem|) && forall k :: 0 <= k < |tasks| ==> InScope(tasks[k], w.scope)
    modifies pool
    ensures Progress(pool, w, tasks, submittedOut, doneOut)
    ensures ok ==> doneOut >= |tasks|
    ensures !ok ==> pool.clock > old(pool.clock) + WATCHDOG_STALL_US && pool.clock > pool.lastCollect + WATCHDOG_STALL_US
  {
    var submitted, done := 0, 0;
    var lastProgress := pool.Now();
    while done < |tasks|
      invariant Progress(pool, w, tasks, submitted, done)
      invariant pool.singleCore ==> submitted == done
      invariant old(pool.clock) < lastProgress && OnWatch(pool, lastProgress)
      decreases |tasks| - done, lastProgress + WATCHDOG_STALL_US - pool.clock
    {
      if pool.singleCore {
        InlineTurn(pool, tasks, submitted, w);
        submitted, done := submitted + 1, done + 1;
      } else {
        var freeSlots := ReportedAvailable(pool, w);
        submitted := FillSlots(pool, tasks, submitted, freeSlots, done, w);
        var stalled;
        done, lastProgress, stalled := PollTurn(pool, tasks, submitted, done, lastProgress, w);
        if stalled {
          return false, submitted, done;
        }
      }
    }
    return true, submitted, done;
  }
}
