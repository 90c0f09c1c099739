/**
  The pool of src/task/axl-task-pool.c as an object: submit, poll and available
  as the source writes them, each loop over the slots interleaved with
  arbitrary steps of the workers.
 */
module PoolObject {
  import opened Sequences
  import opened TaskPool

  class Pool<V(==)> {
    var slots: seq<Slot<V>>
    const singleCore: bool
    const workerCount: nat
    var mem: seq<V>          // the memory the tasks write
    var clock: nat           // microseconds
    var nextId: nat          // the number of submits accepted so far
    ghost var accepted: seq<Task<V>>
    ghost var finished: seq<nat>
    ghost var collected: set<nat>
    ghost var log: seq<Store<V>>
    ghost var lastCollect: nat   // the time of the last poll that counted a task

    ghost function St(): (s: State<V>)
      reads this
    {
      State(slots, mem, accepted, finished, collected, log)
    }

    ghost predicate Valid()
      reads this
    {
      Conserved(St()) && nextId == |accepted| && lastCollect <= clock
    }

    constructor (workers: nat, memory: seq<V>)
      ensures Valid() && Idle(St()) && mem == memory && clock == 0
      ensures singleCore == (workers == 0) && workerCount == workers
    {
      slots := seq(workers, _ => Free);
      singleCore := workers == 0;
      workerCount := workers;
      mem, clock, nextId := memory, 0, 0;
      accepted, finished, collected, log, lastCollect := [], [], {}, [], 0;
    }

    /** A reading of the microsecond clock; it advances between any two readings. */
    method Now() returns (t: nat)
      requires Valid()
      modifies this`clock
      ensures t == clock > old(clock)
      ensures Valid()
    {
      var elapsed :| 0 <= elapsed;
      clock := clock + 1 + elapsed;
      t := clock;
    }

    /** Run a task on the calling processor: `proc(arena, arg)`. */
    method RunStores(stores: seq<Store<V>>)
      requires InBounds(stores, |mem|)
      modifies this`mem
      ensures mem == Replay(old(mem), stores)
    {
      for k := 0 to |stores|
        invariant |mem| == |old(mem)|
        invariant mem == Replay(old(mem), stores[..k])
      {
        mem := mem[stores[k].addr := stores[k].value];
        assert stores[..k + 1][..k] == stores[..k];
      }
      assert stores[..|stores|] == stores;
    }

    // Each atomic step of the protocol. The ghost wave `w` lets a caller follow its own wave.

    method WorkerStore(i: nat, ghost w: Wave<V>)
      requires Valid() && i < |slots| && slots[i].Submitted? && slots[i].pc < |slots[i].task.stores|
      requires InBounds(slots[i].task.stores, |mem|)
      modifies this`slots, this`mem, this`log
      ensures Valid() && St() == StoreAt(old(St()), i)
      ensures old(Tracks(w, St())) ==> Tracks(w, St())
    {
      StoreConserves(St(), i);
      if Tracks(w, St()) {
        StoreTracks(w, St(), i);
      }
      var Submitted(id, t, pc) := slots[i];
      mem := mem[t.stores[pc].addr := t.stores[pc].value];
      log := log + [t.stores[pc]];
      slots := slots[i := Submitted(id, t, pc + 1)];
    }

    method WorkerFinish(i: nat, ghost w: Wave<V>)
      requires Valid() && i < |slots| && slots[i].Submitted? && slots[i].pc == |slots[i].task.stores|
      modifies this`slots, this`finished
      ensures Valid() && St() == FinishAt(old(St()), i)
      ensures old(Tracks(w, St())) ==> Tracks(w, St())
    {
      FinishConserves(St(), i);
      if Tracks(w, St()) {
        FinishTracks(w, St(), i);
      }
      finished := finished + [slots[i].id];
      slots := slots[i := Done(slots[i].id, slots[i].task)];
    }

    method Occupy(i: nat, t: Task<V>, ghost w: Wave<V>)
      requires Valid() && i < |slots| && slots[i].Free? && InBounds(t.stores, |mem|)
      modifies this`slots, this`nextId, this`accepted
      ensures Valid() && St() == SubmitAt(old(St()), i, t)
      ensures old(Tracks(w, St())) && InScope(t, w.scope) ==> Tracks(w, St())
    {
      SubmitConserves(St(), i, t);
      if Tracks(w, St()) && InScope(t, w.scope) {
        SubmitTracks(w, St(), i, t);
      }
      slots := slots[i := Submitted(nextId, t, 0)];
      accepted, nextId := accepted + [t], nextId + 1;
    }

    method Reap(i: nat, ghost w: Wave<V>)
      requires Valid() && i < |slots| && slots[i].Done?
      modifies this`slots, this`collected, this`lastCollect
      ensures Valid() && St() == CollectAt(old(St()), i) && lastCollect == clock
      ensures |collected| == |old(collected)| + 1
      ensures old(Tracks(w, St())) ==> Tracks(w, St())
    {
      CollectConserves(St(), i);
      if Tracks(w, St()) {
        CollectTracks(w, St(), i);
      }
      collected := collected + {slots[i].id};
      slots := slots[i := Free];
      lastCollect := clock;
    }

    method RunHere(t: Task<V>, ghost w: Wave<V>)
      requires Valid() && InBounds(t.stores, |mem|)
      modifies this`mem, this`nextId, this`accepted, this`finished, this`collected, this`log
      ensures Valid() && St() == RunInline(old(St()), t)
      ensures |collected| == |old(collected)| + 1
      ensures old(Tracks(w, St())) && InScope(t, w.scope) ==> Tracks(w, St())
    {
      InlineKeeps(w, St(), t);
      RunStores(t.stores);
      log, finished, collected := log + t.stores, finished + [|accepted|], collected + {|accepted|};
      accepted, nextId := accepted + [t], nextId + 1;
    }

    /** A store by the calling processor itself, outside any task. */
    method StoreHere(x: Store<V>, ghost w: Wave<V>)
      requires Valid() && x.addr < |mem|
      modifies this`mem, this`log
      ensures Valid() && St() == Publish(old(St()), x)
      ensures old(Tracks(w, St())) && x in w.scope ==> Tracks(w, St())
    {
      PublishConserves(St(), x);
      if Tracks(w, St()) && x in w.scope {
        PublishTracks(w, St(), x);
      }
      mem := mem[x.addr := x.value];
      log := log + [x];
    }

    /** The worker of slot `i` makes one step, if it has one to make. */
    method WorkerStep(i: nat, ghost w: Wave<V>)
      requires Valid()
      modifies this`slots, this`mem, this`finished, this`log
      ensures Valid() && |mem| == |old(mem)| && |slots| == |old(slots)| && old(log) <= log
      ensures forall k :: 0 <= k < |slots| ==> (slots[k].Free? <==> old(slots)[k].Free?)
      ensures old(Tracks(w, St())) ==> Tracks(w, St())
    {
      if i < |slots| && slots[i].Submitted? {
        assert SlotSound(slots[i], St());
        if slots[i].pc < |slots[i].task.stores| {
          WorkerStore(i, w);
        } else {
          WorkerFinish(i, w);
        }
      }
    }

    /** Any number of steps by any workers in any order. */
    method Interference(ghost w: Wave<V>)
      requires Valid()
      modifies this`slots, this`mem, this`finished, this`log
      ensures Valid() && |mem| == |old(mem)| && |slots| == |old(slots)| && old(log) <= log
      ensures forall k :: 0 <= k < |slots| ==> (slots[k].Free? <==> old(slots)[k].Free?)
      ensures old(Tracks(w, St())) ==> Tracks(w, St())
    {
      var steps :| 0 <= steps;
      while steps > 0
        invariant Valid() && |mem| == |old(mem)| && |slots| == |old(slots)| && old(log) <= log
        invariant forall k :: 0 <= k < |slots| ==> (slots[k].Free? <==> old(slots)[k].Free?)
        invariant old(Tracks(w, St())) ==> Tracks(w, St())
      {
        var i :| 0 <= i;
        WorkerStep(i, w);
        steps := steps - 1;
      }
    }

    /** axl_task_pool_available: workers cannot change which slots are free, so the count is exact. */
    method Available(ghost w: Wave<V>) returns (count: nat)
      requires Valid()
      modifies this`slots, this`mem, this`finished, this`log
      ensures Valid() && |mem| == |old(mem)|
      ensures count == if singleCore then 0 else CountFree(slots)
      ensures old(Tracks(w, St())) ==> Tracks(w, St())
    {
      if singleCore {
        return 0;
      }
      count := 0;
      var i := 0;
      while i < |slots|
        invariant 0 <= i <= |slots| == |old(slots)|
        invariant Valid() && |mem| == |old(mem)|
        invariant forall k :: 0 <= k < |slots| ==> (slots[k].Free? <==> old(slots)[k].Free?)
        invariant count + CountFree(slots[i..]) == CountFree(old(slots))
        invariant old(Tracks(w, St())) ==> Tracks(w, St())
        decreases |old(slots)| - i
      {
        ghost var before := slots;
        Interference(w);
        CountFreeSame(before[i..], slots[i..]);
        assert slots[i..][1..] == slots[i + 1..];
        if slots[i].Free? {
          count := count + 1;
        }
        i := i + 1;
      }
      CountFreeSame(slots, old(slots));
    }

    /** axl_task_pool_submit. It is refused exactly when no slot is free. */
    method Submit(t: Task<V>, ghost w: Wave<V>) returns (ok: bool)
      requires Valid() && InBounds(t.stores, |mem|)
      modifies this`slots, this`mem, this`nextId, this`accepted, this`finished, this`collected, this`log
      ensures Valid() && |mem| == |old(mem)|
      ensures accepted == if ok then old(accepted) + [t] else old(accepted)
      ensures |collected| == |old(collected)| + if ok && singleCore then 1 else 0
      ensures singleCore ==> ok
      ensures !singleCore ==> (ok <==> old(CountFree(slots)) > 0)
      ensures old(Tracks(w, St())) && InScope(t, w.scope) ==> Tracks(w, St())
    {
      if singleCore {
        RunHere(t, w);
        return true;
      }
      CountFreePositive(slots);
      var i := 0;
      while i < |slots|
        invariant 0 <= i <= |slots| == |old(slots)|
        invariant Valid() && |mem| == |old(mem)|
        invariant forall k :: 0 <= k < |slots| ==> (slots[k].Free? <==> old(slots)[k].Free?)
        invariant forall k :: 0 <= k < i ==> !slots[k].Free?
        invariant accepted == old(accepted) && collected == old(collected)
        invariant old(Tracks(w, St())) ==> Tracks(w, St())
        decreases |old(slots)| - i
      {
        Interference(w);
        if slots[i].Free? {
          Occupy(i, t, w);
          return true;
        }
        i := i + 1;
      }
      return false;
    }

    /** axl_task_pool_poll: free every DONE slot it passes and count them. */
    method Poll(ghost w: Wave<V>) returns (freed: nat)
      requires Valid()
      modifies this`slots, this`mem, this`finished, this`collected, this`log, this`lastCollect
      ensures Valid() && |mem| == |old(mem)| && old(log) <= log
      ensures |collected| == |old(collected)| + freed
      ensures freed <= |slots| == |old(slots)|
      ensures lastCollect == if freed > 0 then clock else old(lastCollect)
      ensures old(Tracks(w, St())) ==> Tracks(w, St())
    {
      freed := 0;
      if singleCore {
        return;
      }
      var i := 0;
      while i < |slots|
        invariant 0 <= i <= |slots| == |old(slots)|
        invariant Valid() && |mem| == |old(mem)| && old(log) <= log
        invariant |collected| == |old(collected)| + freed && freed <= i
        invariant lastCollect == if freed > 0 then clock else old(lastCollect)
        invariant old(Tracks(w, St())) ==> Tracks(w, St())
        decreases |old(slots)| - i
      {
        Interference(w);
        if slots[i].Done? {
          Reap(i, w);
          freed := freed + 1;
        }
        i := i + 1;
      }
    }
  }
}
