/**
  The AP worker pool of src/task/axl-task-pool.c and the memory its tasks write.

  The BSP (the caller) runs sequentially. Workers run concurrently: between any
  two steps of the BSP any number of worker steps may happen, each executing one
  store of one submitted task or marking a finished task DONE. A task is the list
  of the stores it makes.
 */
module TaskPool {
  import opened Sequences

  datatype Store<V> = Store(addr: nat, value: V)

  /** One unit of work: the argument that identifies it, and the stores it makes, in order. */
  datatype Task<V> = Task(arg: nat, stores: seq<Store<V>>)

  /**
    A worker slot: its state word, the task and task id placed in it, and the
    number `pc` of stores the worker has already made.
   */
  datatype Slot<V> =
    | Free
    | Submitted(id: nat, task: Task<V>, pc: nat)
    | Done(id: nat, task: Task<V>)
    | Unusable
  {
    predicate Busy() { Submitted? || Done? }
  }

  // --- Memory ------------------------------------------------------------------

  ghost predicate InBounds<V>(stores: seq<Store<V>>, size: nat)
  {
    forall k :: 0 <= k < |stores| ==> stores[k].addr < size
  }

  /** Memory after the stores of `log`, in order. */
  ghost function Replay<V>(mem: seq<V>, log: seq<Store<V>>): (r: seq<V>)
    requires InBounds(log, |mem|)
    ensures |r| == |mem|
    decreases |log|
  {
    if log == [] then mem
    else
      var last := log[|log| - 1];
      Replay(mem, log[..|log| - 1])[last.addr := last.value]
  }

  /** No address is ever given two different values. */
  ghost predicate Coherent<V>(stores: set<Store<V>>)
  {
    forall x, y :: x in stores && y in stores && x.addr == y.addr ==> x.value == y.value
  }

  /** What a coherent log leaves at each address does not depend on the order of its stores. */
  lemma {:induction false} ReplayAt<V>(mem: seq<V>, log: seq<Store<V>>, a: nat)
    requires InBounds(log, |mem|) && Coherent(Range(log)) && a < |mem|
    ensures (forall x :: x in log ==> x.addr != a) ==> Replay(mem, log)[a] == mem[a]
    ensures forall x :: x in log && x.addr == a ==> Replay(mem, log)[a] == x.value
    decreases |log|
  {
    if log != [] {
      var rest, last := log[..|log| - 1], log[|log| - 1];
      assert log == rest + [last];
      assert Range(rest) <= Range(log);
      ReplayAt(mem, rest, a);
    }
  }

  /** Two coherent logs with the same stores, in any order and multiplicity, leave the same memory. */
  lemma ReplayIgnoresOrder<V>(mem: seq<V>, log: seq<Store<V>>, other: seq<Store<V>>)
    requires InBounds(log, |mem|) && InBounds(other, |mem|)
    requires Range(log) == Range(other) && Coherent(Range(log))
    ensures Replay(mem, log) == Replay(mem, other)
  {
    forall a | 0 <= a < |mem|
      ensures Replay(mem, log)[a] == Replay(mem, other)[a]
    {
      ReplayAt(mem, log, a);
      ReplayAt(mem, other, a);
      if x :| x in Range(log) && x.addr == a {
        assert x in log && x in other;
      }
    }
  }

  // --- Tasks ---------------------------------------------------------------------

  ghost predicate TasksInBounds<V>(tasks: seq<Task<V>>, size: nat)
  {
    forall k :: 0 <= k < |tasks| ==> InBounds(tasks[k].stores, size)
  }

  /** The stores of the tasks run one after another. */
  ghost function Serial<V>(tasks: seq<Task<V>>): (log: seq<Store<V>>)
  {
    if tasks == [] then [] else Serial(tasks[..|tasks| - 1]) + tasks[|tasks| - 1].stores
  }

  lemma {:induction false} SerialMembers<V>(tasks: seq<Task<V>>, x: Store<V>)
    ensures x in Serial(tasks) <==> exists k :: 0 <= k < |tasks| && x in tasks[k].stores
  {
    if tasks != [] {
      var rest := tasks[..|tasks| - 1];
      SerialMembers(rest, x);
      assert tasks == rest + [tasks[|tasks| - 1]];
      if k :| 0 <= k < |tasks| && x in tasks[k].stores {
        assert k < |rest| ==> x in rest[k].stores;
      }
    }
  }

  lemma SerialInBounds<V>(tasks: seq<Task<V>>, size: nat)
    requires TasksInBounds(tasks, size)
    ensures InBounds(Serial(tasks), size)
  {
    forall j | 0 <= j < |Serial(tasks)|
      ensures Serial(tasks)[j].addr < size
    {
      var x := Serial(tasks)[j];
      SerialMembers(tasks, x);
      var k :| 0 <= k < |tasks| && x in tasks[k].stores;
      var i :| 0 <= i < |tasks[k].stores| && tasks[k].stores[i] == x;
    }
  }

  // --- Slots ------------------------------------------------------------------------

  function CountFree<V>(slots: seq<Slot<V>>): (n: nat)
    ensures n <= |slots|
  {
    if slots == [] then 0 else (if slots[0].Free? then 1 else 0) + CountFree(slots[1..])
  }

  lemma {:induction false} CountFreeSame<V>(a: seq<Slot<V>>, b: seq<Slot<V>>)
    requires |a| == |b|
    requires forall i :: 0 <= i < |a| ==> (a[i].Free? <==> b[i].Free?)
    ensures CountFree(a) == CountFree(b)
  {
    if a != [] {
      CountFreeSame(a[1..], b[1..]);
    }
  }

  lemma {:induction false} CountFreePositive<V>(slots: seq<Slot<V>>)
    ensures CountFree(slots) > 0 <==> exists i :: 0 <= i < |slots| && slots[i].Free?
  {
    if slots != [] {
      CountFreePositive(slots[1..]);
      if i :| 0 <= i < |slots| && slots[i].Free? {
        assert i > 0 ==> slots[1..][i - 1].Free?;
      }
    }
  }

  // --- The protocol as a state machine -----------------------------------------------

  /**
    Slots and memory, with the history a run leaves behind: the task of every
    accepted submit (its position is its id), the ids workers completed, the ids
    polls have counted, and every store.
   */
  datatype State<V(==)> = State(
    slots: seq<Slot<V>>, mem: seq<V>,
    accepted: seq<Task<V>>, finished: seq<nat>, collected: set<nat>, log: seq<Store<V>>)

  ghost predicate InSlot<V>(slots: seq<Slot<V>>, id: nat)
  {
    exists i :: 0 <= i < |slots| && slots[i].Busy() && slots[i].id == id
  }

  /** What one slot says agrees with the history. */
  ghost predicate SlotSound<V>(slot: Slot<V>, s: State<V>)
  {
    slot.Busy() ==>
      && slot.id < |s.accepted| && s.accepted[slot.id] == slot.task
      && slot.id !in s.collected
      && (slot.Done? <==> slot.id in s.finished)
      && (slot.Submitted? ==> slot.pc <= |slot.task.stores| && InBounds(slot.task.stores, |s.mem|))
  }

  /** Every accepted task is in exactly one slot or has been counted, and is completed at most once. */
  ghost predicate Conserved<V>(s: State<V>)
  {
    && (forall i :: 0 <= i < |s.slots| ==> SlotSound(s.slots[i], s))
    && (forall i, j :: 0 <= i < j < |s.slots| && s.slots[i].Busy() && s.slots[j].Busy() ==> s.slots[i].id != s.slots[j].id)
    && (forall k :: 0 <= k < |s.accepted| && k !in s.collected ==> InSlot(s.slots, k))
    && (forall k :: k in s.collected ==> k < |s.accepted| && k in s.finished)
    && (forall k :: k in s.finished ==> k < |s.accepted|)
    && NoRepeats(s.finished)
  }

  /** Nothing to run and nothing to collect. */
  ghost predicate Idle<V>(s: State<V>)
  {
    forall i :: 0 <= i < |s.slots| ==> !s.slots[i].Busy()
  }

  ghost function Publish<V>(s: State<V>, x: Store<V>): State<V>
    requires x.addr < |s.mem|
  {
    s.(mem := s.mem[x.addr := x.value], log := s.log + [x])
  }

  /** BSP: FREE -> SUBMITTED. */
  ghost function SubmitAt<V>(s: State<V>, i: nat, t: Task<V>): State<V>
    requires i < |s.slots|
  {
    s.(slots := s.slots[i := Submitted(|s.accepted|, t, 0)], accepted := s.accepted + [t])
  }

  /** Worker: one store of the task in slot `i`. */
  ghost function StoreAt<V>(s: State<V>, i: nat): State<V>
    requires i < |s.slots| && s.slots[i].Submitted? && s.slots[i].pc < |s.slots[i].task.stores|
    requires InBounds(s.slots[i].task.stores, |s.mem|)
  {
    var Submitted(id, t, pc) := s.slots[i];
    Publish(s, t.stores[pc]).(slots := s.slots[i := Submitted(id, t, pc + 1)])
  }

  /** Worker: SUBMITTED -> DONE. */
  ghost function FinishAt<V>(s: State<V>, i: nat): State<V>
    requires i < |s.slots| && s.slots[i].Submitted?
  {
    var slot := s.slots[i];
    s.(slots := s.slots[i := Done(slot.id, slot.task)], finished := s.finished + [slot.id])
  }

  /** BSP: DONE -> FREE. */
  ghost function CollectAt<V>(s: State<V>, i: nat): State<V>
    requires i < |s.slots| && s.slots[i].Done?
  {
    s.(slots := s.slots[i := Free], collected := s.collected + {s.slots[i].id})
  }

  /** BSP on a single-core pool: the submit itself runs the task. */
  ghost function RunInline<V>(s: State<V>, t: Task<V>): State<V>
    requires InBounds(t.stores, |s.mem|)
  {
    s.(mem := Replay(s.mem, t.stores), log := s.log + t.stores, accepted := s.accepted + [t],
       finished := s.finished + [|s.accepted|], collected := s.collected + {|s.accepted|})
  }

  /** Replacing a slot by one with the same id keeps every id findable. */
  lemma StaysInSlot<V>(slots: seq<Slot<V>>, i: nat, slot: Slot<V>, k: nat)
    requires i < |slots| && InSlot(slots, k)
    requires slots[i].Busy() && slots[i].id == k ==> slot.Busy() && slot.id == k
    ensures InSlot(slots[i := slot], k)
  {
    var j :| 0 <= j < |slots| && slots[j].Busy() && slots[j].id == k;
    assert slots[i := slot][j].Busy() && slots[i := slot][j].id == k;
  }

  lemma SubmitConserves<V>(s: State<V>, i: nat, t: Task<V>)
    requires Conserved(s) && i < |s.slots| && s.slots[i].Free? && InBounds(t.stores, |s.mem|)
    ensures Conserved(SubmitAt(s, i, t))
  {
    var n := SubmitAt(s, i, t);
    assert n.slots[i].Busy() && n.slots[i].id == |s.accepted|;
    forall k | 0 <= k < |n.accepted| && k !in n.collected
      ensures InSlot(n.slots, k)
    {
      if k < |s.accepted| {
        StaysInSlot(s.slots, i, n.slots[i], k);
      }
    }
  }

  lemma StoreConserves<V>(s: State<V>, i: nat)
    requires Conserved(s) && i < |s.slots| && s.slots[i].Submitted? && s.slots[i].pc < |s.slots[i].task.stores|
    requires InBounds(s.slots[i].task.stores, |s.mem|)
    ensures Conserved(StoreAt(s, i))
  {
    var n := StoreAt(s, i);
    forall k | 0 <= k < |n.accepted| && k !in n.collected
      ensures InSlot(n.slots, k)
    {
      StaysInSlot(s.slots, i, n.slots[i], k);
    }
  }

  lemma FinishConserves<V>(s: State<V>, i: nat)
    requires Conserved(s) && i < |s.slots| && s.slots[i].Submitted?
    ensures Conserved(FinishAt(s, i))
  {
    var n := FinishAt(s, i);
    assert SlotSound(s.slots[i], s);
    NoRepeatsNext(s.finished, s.slots[i].id);
    forall k | 0 <= k < |n.accepted| && k !in n.collected
      ensures InSlot(n.slots, k)
    {
      StaysInSlot(s.slots, i, n.slots[i], k);
    }
    forall j | 0 <= j < |n.slots|
      ensures SlotSound(n.slots[j], n)
    {
      assert SlotSound(s.slots[j], s);
    }
  }

  lemma CollectConserves<V>(s: State<V>, i: nat)
    requires Conserved(s) && i < |s.slots| && s.slots[i].Done?
    ensures Conserved(CollectAt(s, i))
    ensures |CollectAt(s, i).collected| == |s.collected| + 1
  {
    var n := CollectAt(s, i);
    assert SlotSound(s.slots[i], s);
    forall k | 0 <= k < |n.accepted| && k !in n.collected
      ensures InSlot(n.slots, k)
    {
      StaysInSlot(s.slots, i, n.slots[i], k);
    }
    forall j | 0 <= j < |n.slots|
      ensures SlotSound(n.slots[j], n)
    {
      assert SlotSound(s.slots[j], s);
    }
  }

  lemma InlineConserves<V>(s: State<V>, t: Task<V>)
    requires Conserved(s) && InBounds(t.stores, |s.mem|)
    ensures Conserved(RunInline(s, t))
    ensures |RunInline(s, t).collected| == |s.collected| + 1
  {
    var n := RunInline(s, t);
    assert |s.accepted| !in s.finished && |s.accepted| !in s.collected;
    NoRepeatsNext(s.finished, |s.accepted|);
    forall j | 0 <= j < |n.slots|
      ensures SlotSound(n.slots[j], n)
    {
      assert SlotSound(s.slots[j], s);
    }
  }

  lemma PublishConserves<V>(s: State<V>, x: Store<V>)
    requires Conserved(s) && x.addr < |s.mem|
    ensures Conserved(Publish(s, x))
  {
    var n := Publish(s, x);
    forall j | 0 <= j < |n.slots|
      ensures SlotSound(n.slots[j], n)
    {
      assert SlotSound(s.slots[j], s);
    }
  }

  lemma {:induction false} FullSet(ids: set<nat>, n: nat)
    requires forall k :: k in ids ==> k < n
    ensures |ids| <= n
    ensures |ids| == n <==> forall k :: 0 <= k < n ==> k in ids
  {
    if n == 0 {
      assert ids == {};
    } else {
      var rest := ids - {n - 1};
      FullSet(rest, n - 1);
      assert (n - 1) in ids ==> ids == rest + {n - 1};
      assert (n - 1) !in ids ==> ids == rest;
      assert forall k :: 0 <= k < n - 1 ==> (k in ids <==> k in rest);
    }
  }

  /** A pool is idle exactly when polls have counted as many tasks as submits accepted. */
  lemma IdleIffAllCollected<V>(s: State<V>)
    requires Conserved(s)
    ensures |s.collected| <= |s.accepted|
    ensures Idle(s) <==> |s.collected| == |s.accepted|
  {
    FullSet(s.collected, |s.accepted|);
    if Idle(s) {
      forall k | 0 <= k < |s.accepted|
        ensures k in s.collected
      {
        assert !InSlot(s.slots, k);
      }
    }
    if |s.collected| == |s.accepted| {
      forall i | 0 <= i < |s.slots|
        ensures !s.slots[i].Busy()
      {
        assert SlotSound(s.slots[i], s);
      }
    }
  }

  // --- One wave -----------------------------------------------------------------------

  /** The point in a run where a wave begins, and the stores its tasks may make. */
  datatype Wave<V(==)> = Wave(start: State<V>, scope: set<Store<V>>)

  ghost predicate Extends<V>(w: Wave<V>, s: State<V>)
  {
    && w.start.log <= s.log && w.start.accepted <= s.accepted && w.start.finished <= s.finished
    && |w.start.mem| == |s.mem|
  }

  ghost function Since<V>(w: Wave<V>, s: State<V>): seq<Store<V>>
    requires Extends(w, s)
  {
    s.log[|w.start.log|..]
  }

  /** Everything stored since the wave began is accounted for by its tasks, and conversely. */
  ghost predicate Tracks<V>(w: Wave<V>, s: State<V>)
  {
    && Extends(w, s)
    && InBounds(Since(w, s), |s.mem|)
    && s.mem == Replay(w.start.mem, Since(w, s))
    && (forall x :: x in Since(w, s) ==> x in w.scope)
    && (forall i :: 0 <= i < |s.slots| && s.slots[i].Submitted? ==> SlotTracked(w, s.slots[i], Since(w, s)))
    && (forall k :: |w.start.finished| <= k < |s.finished| ==> s.finished[k] < |s.accepted| && TaskStored(s.accepted[s.finished[k]], Since(w, s)))
  }

  ghost predicate SlotTracked<V>(w: Wave<V>, slot: Slot<V>, since: seq<Store<V>>)
    requires slot.Submitted?
  {
    && InScope(slot.task, w.scope)
    && (forall j :: 0 <= j < slot.pc && j < |slot.task.stores| ==> slot.task.stores[j] in since)
  }

  ghost predicate InScope<V>(t: Task<V>, scope: set<Store<V>>)
  {
    forall x :: x in t.stores ==> x in scope
  }

  ghost predicate TaskStored<V>(t: Task<V>, since: seq<Store<V>>)
  {
    forall x :: x in t.stores ==> x in since
  }

  lemma IdleTracks<V>(w: Wave<V>)
    requires Idle(w.start)
    ensures Tracks(w, w.start)
  {
    assert Since(w, w.start) == [];
  }

  lemma PublishTracks<V>(w: Wave<V>, s: State<V>, x: Store<V>)
    requires Tracks(w, s) && x.addr < |s.mem| && x in w.scope
    ensures Tracks(w, Publish(s, x))
    ensures Since(w, Publish(s, x)) == Since(w, s) + [x]
  {
    var before, after := Since(w, s), Since(w, Publish(s, x));
    assert after == before + [x];
    assert after[..|after| - 1] == before;
    forall k | |w.start.finished| <= k < |s.finished|
      ensures TaskStored(s.accepted[s.finished[k]], after)
    {
      assert TaskStored(s.accepted[s.finished[k]], before);
    }
  }

  /** A cell written since the wave began holds what was written, whoever else ran. */
  lemma CellHolds<V>(w: Wave<V>, s: State<V>, x: Store<V>)
    requires Tracks(w, s) && Coherent(w.scope) && x in Since(w, s)
    ensures x.addr < |s.mem| && s.mem[x.addr] == x.value
  {
    var since := Since(w, s);
    var k :| 0 <= k < |since| && since[k] == x;
    assert Coherent(Range(since));
    ReplayAt(w.start.mem, since, x.addr);
  }

  lemma SubmitTracks<V>(w: Wave<V>, s: State<V>, i: nat, t: Task<V>)
    requires Tracks(w, s) && i < |s.slots| && InScope(t, w.scope)
    ensures Tracks(w, SubmitAt(s, i, t))
  {
    assert Since(w, SubmitAt(s, i, t)) == Since(w, s);
  }

  lemma StoreTracks<V>(w: Wave<V>, s: State<V>, i: nat)
    requires Tracks(w, s)
    requires i < |s.slots| && s.slots[i].Submitted? && s.slots[i].pc < |s.slots[i].task.stores|
    requires InBounds(s.slots[i].task.stores, |s.mem|)
    ensures Tracks(w, StoreAt(s, i))
  {
    var slot := s.slots[i];
    var x := slot.task.stores[slot.pc];
    assert SlotTracked(w, slot, Since(w, s));
    PublishTracks(w, s, x);
    var p := Publish(s, x);
    forall k | 0 <= k < |s.slots| && StoreAt(s, i).slots[k].Submitted?
      ensures SlotTracked(w, StoreAt(s, i).slots[k], Since(w, p))
    {
      assert SlotTracked(w, p.slots[k], Since(w, p));
    }
  }

  lemma FinishTracks<V>(w: Wave<V>, s: State<V>, i: nat)
    requires Conserved(s) && Tracks(w, s)
    requires i < |s.slots| && s.slots[i].Submitted? && s.slots[i].pc == |s.slots[i].task.stores|
    ensures Tracks(w, FinishAt(s, i))
  {
    assert SlotSound(s.slots[i], s);
    assert SlotTracked(w, s.slots[i], Since(w, s));
    assert TaskStored(s.slots[i].task, Since(w, s));
  }

  lemma CollectTracks<V>(w: Wave<V>, s: State<V>, i: nat)
    requires Tracks(w, s) && i < |s.slots| && s.slots[i].Done?
    ensures Tracks(w, CollectAt(s, i))
  {
  }

  lemma {:induction false} ReplayAppend<V>(mem: seq<V>, a: seq<Store<V>>, b: seq<Store<V>>)
    requires InBounds(a, |mem|) && InBounds(b, |mem|)
    ensures InBounds(a + b, |mem|) && Replay(mem, a + b) == Replay(Replay(mem, a), b)
    decreases |b|
  {
    if b == [] {
      assert a + b == a;
    } else {
      var rest := b[..|b| - 1];
      ReplayAppend(mem, a, rest);
      assert (a + b)[..|a + b| - 1] == a + rest;
    }
  }

  lemma InlineTracks<V>(w: Wave<V>, s: State<V>, t: Task<V>)
    requires Tracks(w, s) && InBounds(t.stores, |s.mem|) && InScope(t, w.scope)
    ensures Tracks(w, RunInline(s, t))
  {
    var n := RunInline(s, t);
    ReplayAppend(w.start.mem, Since(w, s), t.stores);
    assert Since(w, n) == Since(w, s) + t.stores;
    forall k | |w.start.finished| <= k < |n.finished|
      ensures TaskStored(n.accepted[n.finished[k]], Since(w, n))
    {
      if k < |s.finished| {
        assert TaskStored(s.accepted[s.finished[k]], Since(w, s));
      }
    }
    forall k | 0 <= k < |s.slots| && s.slots[k].Submitted?
      ensures SlotTracked(w, s.slots[k], Since(w, n))
    {
      assert SlotTracked(w, s.slots[k], Since(w, s));
    }
  }

  lemma InlineKeeps<V>(w: Wave<V>, s: State<V>, t: Task<V>)
    requires Conserved(s) && InBounds(t.stores, |s.mem|)
    ensures Conserved(RunInline(s, t)) && |RunInline(s, t).collected| == |s.collected| + 1
    ensures Tracks(w, s) && InScope(t, w.scope) ==> Tracks(w, RunInline(s, t))
  {
    InlineConserves(s, t);
    if Tracks(w, s) && InScope(t, w.scope) {
      InlineTracks(w, s, t);
    }
  }

  /** The ids completed since the wave began. */
  ghost function RanSince<V>(w: Wave<V>, s: State<V>): (ids: seq<nat>)
    requires Extends(w, s)
  {
    s.finished[|w.start.finished|..]
  }

  lemma NotRepeated(a: seq<nat>, b: seq<nat>, k: nat)
    requires NoRepeats(a + b) && k in b
    ensures k !in a
  {
    var j :| 0 <= j < |b| && b[j] == k;
    forall i | 0 <= i < |a|
      ensures a[i] != k
    {
      assert (a + b)[i] != (a + b)[|a| + j];
    }
  }

  /**
    A wave that began idle and is idle again has run exactly the submits it
    accepted, each exactly once.
   */
  lemma WaveRunsEachOnce<V>(w: Wave<V>, s: State<V>)
    requires Conserved(w.start) && Idle(w.start)
    requires Conserved(s) && Idle(s) && Extends(w, s)
    ensures NoRepeats(RanSince(w, s))
    ensures forall k :: k in RanSince(w, s) <==> |w.start.accepted| <= k < |s.accepted|
  {
    IdleIffAllCollected(w.start);
    IdleIffAllCollected(s);
    FullSet(w.start.collected, |w.start.accepted|);
    FullSet(s.collected, |s.accepted|);
    var ran := RanSince(w, s);
    assert s.finished == w.start.finished + ran;
    forall k | |w.start.accepted| <= k < |s.accepted|
      ensures k in ran
    {
      assert k in s.finished;
    }
    forall k | k in ran
      ensures |w.start.accepted| <= k < |s.accepted|
    {
      NotRepeated(w.start.finished, ran, k);
      assert k in s.finished;
    }
  }

  /**
    If moreover the tasks of the wave never disagree about the value of an
    address, memory is what running them one after another would leave.
   */
  lemma WaveIsSerial<V>(w: Wave<V>, s: State<V>, tasks: seq<Task<V>>, others: seq<Store<V>>)
    requires Conserved(w.start) && Idle(w.start)
    requires Conserved(s) && Idle(s) && Tracks(w, s)
    requires s.accepted == w.start.accepted + tasks
    requires TasksInBounds(tasks, |s.mem|) && InBounds(others, |s.mem|)
    requires forall x :: x in others ==> x in Since(w, s)
    requires w.scope == Range(Serial(tasks) + others) && Coherent(w.scope)
    ensures InBounds(Serial(tasks) + others, |w.start.mem|)
    ensures s.mem == Replay(w.start.mem, Serial(tasks) + others)
  {
    WaveRunsEachOnce(w, s);
    SerialInBounds(tasks, |s.mem|);
    var all := Serial(tasks) + others;
    forall x | x in all
      ensures x in Since(w, s)
    {
      if x in Serial(tasks) {
        WaveStoresAll(w, s, tasks, x);
      }
    }
    assert Range(Since(w, s)) == Range(all);
    ReplayIgnoresOrder(w.start.mem, Since(w, s), all);
  }

  lemma WaveStoresAll<V>(w: Wave<V>, s: State<V>, tasks: seq<Task<V>>, x: Store<V>)
    requires Tracks(w, s)
    requires s.accepted == w.start.accepted + tasks
    requires forall k :: |w.start.accepted| <= k < |s.accepted| ==> k in RanSince(w, s)
    requires x in Serial(tasks)
    ensures x in Since(w, s)
  {
    SerialMembers(tasks, x);
    var k :| 0 <= k < |tasks| && x in tasks[k].stores;
    var id := |w.start.accepted| + k;
    assert s.accepted[id] == tasks[k];
    assert id in RanSince(w, s);
    var j :| 0 <= j < |RanSince(w, s)| && RanSince(w, s)[j] == id;
    assert s.finished[|w.start.finished| + j] == id;
    assert TaskStored(s.accepted[id], Since(w, s));
  }
}
