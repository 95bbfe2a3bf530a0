// The recovering worker pool: reservation scans, failure reports and repairs, as the synchronous
// segments that the event loop may run in any order.
module WorkerPool {
  import opened Prelude

  // Where a slot's repair stands: none; the factory was called; it failed and the handler has not
  // run; the outcome is recorded and only the field is to be cleared.
  datatype Repair = Idle | Calling | Rejected | Closing

  // `calls` counts the factory calls of the slot that are not over.
  datatype Slot = Slot(worker: Option<nat>, repair: Repair, retryAt: int, calls: nat)

  // Every worker a repair or the initialization produced, those terminated, and those that have
  // failed so far; a worker is known by a number.
  datatype Pool = Pool(slots: seq<Slot>, produced: set<nat>, terminated: set<nat>, failed: set<nat>, now: int,
                       retryDelayMs: nat)

  datatype Step =
    | Advance(to: int)
    | Fail(worker: nat)
    | Scan(accepting: set<nat>)
    | Report(worker: nat)
    | Produce(slot: nat, worker: nat, failedAlready: bool)
    | Reject(slot: nat)
    | HandleRejection(slot: nat)
    | Clear(slot: nat)

  predicate Enabled(p: Pool, step: Step) {
    match step
    case Advance(to) => to >= p.now
    case Fail(w) => w in p.produced
    case Scan(_) => true
    case Report(_) => true
    case Produce(i, w, _) => i < |p.slots| && p.slots[i].repair.Calling? && w !in p.produced
    case Reject(i) => i < |p.slots| && p.slots[i].repair.Calling?
    case HandleRejection(i) => i < |p.slots| && p.slots[i].repair.Rejected?
    case Clear(i) => i < |p.slots| && p.slots[i].repair.Closing?
  }

  /*** Segments ***/

  // scheduleRepair: starts the factory unless the slot has a worker, a repair, or must wait.
  function Scheduled(slot: Slot, now: int): Slot {
    if slot.worker.Some? || !slot.repair.Idle? || now < slot.retryAt then slot
    else slot.(repair := Calling, calls := slot.calls + 1)
  }

  function Emptied(p: Pool, i: nat): Pool
    requires i < |p.slots| && p.slots[i].worker.Some?
  {
    p.(slots := p.slots[i := Scheduled(p.slots[i].(worker := None), p.now)],
       terminated := p.terminated + {p.slots[i].worker.value})
  }

  datatype Scanned = Scanned(pool: Pool, reserved: Option<nat>)

  // One pass of reserve() from slot i on.
  function ScanFrom(p: Pool, i: nat, accepting: set<nat>): Scanned
    requires i <= |p.slots|
    ensures |ScanFrom(p, i, accepting).pool.slots| == |p.slots|
    decreases |p.slots| - i
  {
    if i == |p.slots| then Scanned(p, None)
    else
      match p.slots[i].worker
      case Some(w) =>
        if w in p.failed then ScanFrom(Emptied(p, i), i + 1, accepting)
        else if w in accepting then Scanned(p, Some(w))
        else ScanFrom(p, i + 1, accepting)
      case None => ScanFrom(p.(slots := p.slots[i := Scheduled(p.slots[i], p.now)]), i + 1, accepting)
  }

  function SlotOf(slots: seq<Slot>, w: nat): (i: Option<nat>)
    ensures i.Some? ==> i.value < |slots| && slots[i.value].worker == Some(w)
    ensures i.None? ==> forall j :: 0 <= j < |slots| ==> slots[j].worker != Some(w)
  {
    if slots == [] then None
    else if slots[0].worker == Some(w) then Some(0)
    else
      var rest := SlotOf(slots[1..], w);
      if rest.None? then None else Some(rest.value + 1)
  }

  function Next(p: Pool, step: Step): Pool
    requires Enabled(p, step)
  {
    match step
    case Advance(to) => p.(now := to)
    case Fail(w) => p.(failed := p.failed + {w})
    case Scan(accepting) => ScanFrom(p, 0, accepting).pool
    case Report(w) =>
      var i := SlotOf(p.slots, w);
      if i.None? || w !in p.failed then p else Emptied(p, i.value)
    case Produce(i, w, failedAlready) =>
      if failedAlready then
        p.(slots := p.slots[i := p.slots[i].(repair := Rejected)], produced := p.produced + {w},
           terminated := p.terminated + {w}, failed := p.failed + {w})
      else
        p.(slots := p.slots[i := Slot(Some(w), Closing, 0, p.slots[i].calls)], produced := p.produced + {w})
    case Reject(i) => p.(slots := p.slots[i := p.slots[i].(repair := Rejected)])
    case HandleRejection(i) => p.(slots := p.slots[i := p.slots[i].(repair := Closing, retryAt := p.now + p.retryDelayMs)])
    case Clear(i) => p.(slots := p.slots[i := p.slots[i].(repair := Idle, calls := if p.slots[i].calls > 0 then p.slots[i].calls - 1 else 0)])
  }

  ghost predicate Run(p: Pool, steps: seq<Step>, last: Pool)
    decreases |steps|
  {
    if steps == [] then last == p else Enabled(p, steps[0]) && Run(Next(p, steps[0]), steps[1..], last)
  }

  /*** Every worker has its place ***/

  predicate InSlot(slots: seq<Slot>, w: nat, i: nat) {
    i < |slots| && slots[i].worker == Some(w)
  }

  // A produced worker is in exactly one slot, or it failed and was terminated.
  ghost predicate Sound(p: Pool) {
    && (forall i, w :: InSlot(p.slots, w, i) ==> w in p.produced && w !in p.terminated)
    && (forall i, j, w :: InSlot(p.slots, w, i) && InSlot(p.slots, w, j) ==> i == j)
    && (forall w :: w in p.produced && w !in p.terminated ==> exists i: nat :: InSlot(p.slots, w, i))
    && p.terminated <= p.failed && p.terminated <= p.produced
    && (forall i :: 0 <= i < |p.slots| ==> RepairSound(p.slots[i]))
  }

  // At most one factory call at a time, and only for an empty slot until it produces a worker.
  predicate RepairSound(slot: Slot) {
    && slot.calls == (if slot.repair.Idle? then 0 else 1)
    && (slot.repair.Calling? || slot.repair.Rejected? ==> slot.worker.None?)
  }

  lemma SlotsOnlyRepairing(p: Pool, slots: seq<Slot>)
    requires Sound(p) && |slots| == |p.slots|
    requires forall i :: 0 <= i < |slots| ==> slots[i].worker == p.slots[i].worker
    requires forall i :: 0 <= i < |slots| ==> RepairSound(slots[i])
    ensures Sound(p.(slots := slots))
  {
    var q := p.(slots := slots);
    assert forall i, w :: InSlot(q.slots, w, i) <==> InSlot(p.slots, w, i);
  }

  lemma EmptiedIsSound(p: Pool, i: nat)
    requires Sound(p) && i < |p.slots| && p.slots[i].worker.Some? && p.slots[i].worker.value in p.failed
    ensures Sound(Emptied(p, i))
  {
    var q, gone := Emptied(p, i), p.slots[i].worker.value;
    assert InSlot(p.slots, gone, i);
    assert forall j, w :: InSlot(q.slots, w, j) <==> InSlot(p.slots, w, j) && w != gone;
  }

  // Workers that have not failed stay where they are during a scan.
  lemma {:induction false} ScanIsSound(p: Pool, i: nat, accepting: set<nat>)
    requires Sound(p) && i <= |p.slots|
    ensures var q := ScanFrom(p, i, accepting).pool;
            && Sound(q) && q.produced == p.produced && q.failed == p.failed && q.now == p.now && q.retryDelayMs == p.retryDelayMs
            && forall j, w :: InSlot(p.slots, w, j) && w !in p.failed ==> InSlot(q.slots, w, j)
    decreases |p.slots| - i
  {
    if i < |p.slots| {
      match p.slots[i].worker {
        case Some(w) =>
          if w in p.failed {
            EmptiedIsSound(p, i);
            ScanIsSound(Emptied(p, i), i + 1, accepting);
            assert forall j, v :: InSlot(p.slots, v, j) && v !in p.failed ==> InSlot(Emptied(p, i).slots, v, j);
          } else if w !in accepting {
            ScanIsSound(p, i + 1, accepting);
          }
        case None =>
          var q := p.(slots := p.slots[i := Scheduled(p.slots[i], p.now)]);
          SlotsOnlyRepairing(p, q.slots);
          ScanIsSound(q, i + 1, accepting);
          assert forall j, v :: InSlot(p.slots, v, j) ==> InSlot(q.slots, v, j);
      }
    }
  }

  lemma ProducedIsSound(p: Pool, i: nat, w: nat, failedAlready: bool)
    requires Sound(p) && Enabled(p, Produce(i, w, failedAlready))
    ensures Sound(Next(p, Produce(i, w, failedAlready)))
  {
    var q := Next(p, Produce(i, w, failedAlready));
    if failedAlready {
      assert forall j, v :: InSlot(q.slots, v, j) <==> InSlot(p.slots, v, j);
    } else {
      assert forall j, v :: InSlot(q.slots, v, j) <==> InSlot(p.slots, v, j) || (v == w && j == i);
      assert InSlot(q.slots, w, i);
    }
  }

  lemma StepKeepsSound(p: Pool, step: Step)
    requires Sound(p) && Enabled(p, step)
    ensures Sound(Next(p, step))
  {
    match step
    case Advance(_) => SlotsOnlyRepairing(p, p.slots);
    case Fail(w) => assert forall i, v :: InSlot(Next(p, step).slots, v, i) <==> InSlot(p.slots, v, i);
    case Scan(accepting) => ScanIsSound(p, 0, accepting);
    case Report(w) =>
      var i := SlotOf(p.slots, w);
      if i.Some? && w in p.failed {
        EmptiedIsSound(p, i.value);
      }
    case Produce(i, w, failedAlready) => ProducedIsSound(p, i, w, failedAlready);
    case Reject(i) => SlotsOnlyRepairing(p, Next(p, step).slots);
    case HandleRejection(i) => SlotsOnlyRepairing(p, Next(p, step).slots);
    case Clear(i) => SlotsOnlyRepairing(p, Next(p, step).slots);
  }

  // In every interleaving each worker produced is in exactly one slot or terminated, and only
  // failed workers are terminated.
  lemma {:induction false} RunsKeepSound(p: Pool, steps: seq<Step>, last: Pool)
    requires Sound(p) && Run(p, steps, last)
    ensures Sound(last)
    decreases |steps|
  {
    if steps != [] {
      StepKeepsSound(p, steps[0]);
      RunsKeepSound(Next(p, steps[0]), steps[1..], last);
    }
  }

  lemma StepKeepsHealthy(p: Pool, step: Step, w: nat, i: nat)
    requires Sound(p) && Enabled(p, step) && InSlot(p.slots, w, i) && w !in p.failed
    ensures InSlot(Next(p, step).slots, w, i)
    ensures p.failed <= Next(p, step).failed
  {
    match step
    case Scan(accepting) => ScanIsSound(p, 0, accepting);
    case Produce(j, v, failedAlready) => assert RepairSound(p.slots[j]);
    case _ =>
  }

  // A worker that has not failed is never dropped from its slot.
  lemma {:induction false} HealthyWorkersStay(p: Pool, steps: seq<Step>, last: Pool, w: nat, i: nat)
    requires Sound(p) && Run(p, steps, last) && InSlot(p.slots, w, i) && w !in last.failed
    ensures InSlot(last.slots, w, i)
    decreases |steps|
  {
    FailuresLast(p, steps, last);
    if steps != [] {
      StepKeepsSound(p, steps[0]);
      StepKeepsHealthy(p, steps[0], w, i);
      HealthyWorkersStay(Next(p, steps[0]), steps[1..], last, w, i);
    }
  }

  lemma {:induction false} FailuresLast(p: Pool, steps: seq<Step>, last: Pool)
    requires Sound(p) && Run(p, steps, last)
    ensures p.failed <= last.failed
    decreases |steps|
  {
    if steps != [] {
      StepKeepsSound(p, steps[0]);
      StepKeepsFailures(p, steps[0]);
      FailuresLast(Next(p, steps[0]), steps[1..], last);
    }
  }

  lemma StepKeepsFailures(p: Pool, step: Step)
    requires Sound(p) && Enabled(p, step)
    ensures p.failed <= Next(p, step).failed && Next(p, step).now >= p.now && Next(p, step).retryDelayMs == p.retryDelayMs
    ensures |Next(p, step).slots| == |p.slots|
  {
    if step.Scan? {
      ScanIsSound(p, 0, step.accepting);
    }
  }

  /*** Backing off ***/

  // Slot i starts no repair before time t.
  predicate Waits(p: Pool, i: nat, t: int) {
    i < |p.slots| && (p.now >= t || (p.slots[i].retryAt == t && !p.slots[i].repair.Calling? && !p.slots[i].repair.Rejected?))
  }

  lemma {:induction false} ScanWaits(p: Pool, k: nat, accepting: set<nat>, i: nat, t: int)
    requires k <= |p.slots| && Waits(p, i, t)
    ensures Waits(ScanFrom(p, k, accepting).pool, i, t) && ScanFrom(p, k, accepting).pool.now == p.now
    decreases |p.slots| - k
  {
    if k < |p.slots| {
      match p.slots[k].worker {
        case Some(w) =>
          if w in p.failed {
            ScanWaits(Emptied(p, k), k + 1, accepting, i, t);
          } else if w !in accepting {
            ScanWaits(p, k + 1, accepting, i, t);
          }
        case None => ScanWaits(p.(slots := p.slots[k := Scheduled(p.slots[k], p.now)]), k + 1, accepting, i, t);
      }
    }
  }

  lemma StepWaits(p: Pool, step: Step, i: nat, t: int)
    requires Enabled(p, step) && Waits(p, i, t)
    ensures Waits(Next(p, step), i, t)
  {
    if step.Scan? {
      ScanWaits(p, 0, step.accepting, i, t);
    }
  }

  // After a failed repair at some time, whenever the factory is at work for that slot again the
  // retry delay has passed.
  lemma {:induction false} RepairsBackOff(p: Pool, steps: seq<Step>, last: Pool, i: nat)
    requires Enabled(p, HandleRejection(i)) && Run(Next(p, HandleRejection(i)), steps, last)
    ensures i < |last.slots| && (last.slots[i].repair.Calling? ==> last.now >= p.now + p.retryDelayMs)
  {
    WaitsAlong(Next(p, HandleRejection(i)), steps, last, i, p.now + p.retryDelayMs);
  }

  lemma {:induction false} WaitsAlong(p: Pool, steps: seq<Step>, last: Pool, i: nat, t: int)
    requires Run(p, steps, last) && Waits(p, i, t)
    ensures Waits(last, i, t)
    decreases |steps|
  {
    if steps != [] {
      StepWaits(p, steps[0], i, t);
      WaitsAlong(Next(p, steps[0]), steps[1..], last, i, t);
    }
  }

  /*** What a scan finds and leaves ***/

  // A slot is tended when it has a worker that has not failed, a repair under way, or must wait.
  predicate Tended(p: Pool, i: nat)
    requires i < |p.slots|
  {
    (p.slots[i].worker.Some? && p.slots[i].worker.value !in p.failed) || !p.slots[i].repair.Idle? || p.now < p.slots[i].retryAt
  }

  // A scan reserves a healthy worker of the pool that accepts; when it reserves none, every slot
  // is tended and no healthy worker was willing.
  lemma {:induction false} ScanFinds(p: Pool, i: nat, accepting: set<nat>)
    requires i <= |p.slots|
    requires forall j :: 0 <= j < i ==> Tended(p, j) && (p.slots[j].worker.Some? ==> p.slots[j].worker.value !in accepting)
    ensures var done := ScanFrom(p, i, accepting);
            match done.reserved
            case Some(w) => w in accepting && w !in p.failed && SlotOf(p.slots, w).Some?
            case None => forall j :: 0 <= j < |p.slots| ==>
              Tended(done.pool, j) && (done.pool.slots[j].worker.Some? ==> done.pool.slots[j].worker.value !in accepting)
    decreases |p.slots| - i
  {
    if i < |p.slots| {
      match p.slots[i].worker {
        case Some(w) =>
          if w in p.failed {
            ScanFinds(Emptied(p, i), i + 1, accepting);
          } else if w !in accepting {
            ScanFinds(p, i + 1, accepting);
          }
        case None => ScanFinds(p.(slots := p.slots[i := Scheduled(p.slots[i], p.now)]), i + 1, accepting);
      }
    }
  }

  /*** The pool's methods ***/

  class RecoveringWorkerPool {
    var pool: Pool

    constructor (size: nat, retryDelayMs: nat)
      ensures pool == Pool(seq(size, _ => Slot(None, Idle, 0, 0)), {}, {}, {}, 0, retryDelayMs) && Sound(pool)
    {
      pool := Pool(seq(size, _ => Slot(None, Idle, 0, 0)), {}, {}, {}, 0, retryDelayMs);
    }

    method ScheduleRepair(i: nat)
      requires i < |pool.slots|
      modifies this
      ensures pool == old(pool).(slots := old(pool).slots[i := Scheduled(old(pool).slots[i], old(pool).now)])
    {
      var slot := pool.slots[i];
      if slot.worker.Some? || !slot.repair.Idle? || pool.now < slot.retryAt {
        assert pool.slots[i := slot] == pool.slots;
        return;
      }
      pool := pool.(slots := pool.slots[i := slot.(repair := Calling, calls := slot.calls + 1)]);
    }

    method Discard(i: nat)
      requires i < |pool.slots| && pool.slots[i].worker.Some?
      modifies this
      ensures pool == Emptied(old(pool), i)
    {
      var worker := pool.slots[i].worker.value;
      pool := pool.(slots := pool.slots[i := pool.slots[i].(worker := None)], terminated := pool.terminated + {worker});
      ScheduleRepair(i);
      assert pool.slots == old(pool).slots[i := Scheduled(old(pool).slots[i].(worker := None), old(pool).now)];
    }

    // One pass over the slots; `accepting` are the workers whose own reserve() says yes.
    method TryReserve(accepting: set<nat>) returns (reserved: Option<nat>)
      requires Sound(pool)
      modifies this
      ensures pool == Next(old(pool), Scan(accepting)) && Sound(pool)
      ensures reserved.Some? ==> reserved.value in accepting && reserved.value !in pool.failed && SlotOf(pool.slots, reserved.value).Some?
      ensures reserved.None? ==> forall j :: 0 <= j < |pool.slots| ==>
                Tended(pool, j) && (pool.slots[j].worker.Some? ==> pool.slots[j].worker.value !in accepting)
    {
      StepKeepsSound(pool, Scan(accepting));
      ScanFinds(pool, 0, accepting);
      ScanIsSound(pool, 0, accepting);
      ghost var p := pool;
      var i := 0;
      while i < |pool.slots|
        invariant 0 <= i <= |pool.slots| == |p.slots|
        invariant ScanFrom(pool, i, accepting) == ScanFrom(p, 0, accepting)
      {
        var worker := pool.slots[i].worker;
        if worker.Some? && worker.value in pool.failed {
          Discard(i);
        } else if worker.Some? && worker.value in accepting {
          ReservedStays(p, accepting, worker.value, i);
          return worker;
        } else if worker.None? {
          ScheduleRepair(i);
        }
        i := i + 1;
      }
      reserved := None;
    }

    static lemma ReservedStays(p: Pool, accepting: set<nat>, w: nat, i: nat)
      requires ScanFrom(p, 0, accepting).reserved == Some(w) && InSlot(ScanFrom(p, 0, accepting).pool.slots, w, i)
      ensures SlotOf(ScanFrom(p, 0, accepting).pool.slots, w).Some?
    {
    }

    method ReportFailure(worker: nat)
      requires Sound(pool)
      modifies this
      ensures pool == Next(old(pool), Report(worker)) && Sound(pool)
    {
      StepKeepsSound(pool, Report(worker));
      var i := SlotOf(pool.slots, worker);
      if i.None? || worker !in pool.failed {
        return;
      }
      Discard(i.value);
    }
  }
}
