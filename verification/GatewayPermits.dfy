// The gateway's semaphore: at most maxConcurrency downloads, waiters served in order, a permit
// handed over directly from the download that ends to the one that waits longest.
module GatewayPermits {
  import opened Prelude

  // The counter and the queue; `holders` are the downloads that have a permit.
  datatype Gate = Gate(active: int, waiters: seq<nat>, holders: set<nat>)

  // The synchronous segments of acquire (with the outcome of its deadline test), of the waiter's
  // timer and of release.
  datatype Step =
    | Acquire(download: nat, expired: bool)
    | TimeOut(download: nat)
    | Release(download: nat)

  function Remove(waiters: seq<nat>, d: nat): seq<nat> {
    if waiters == [] then [] else if waiters[0] == d then waiters[1..] else [waiters[0]] + Remove(waiters[1..], d)
  }

  // A handed-over waiter's timer is cleared, so it fires only for those still queued.
  predicate Enabled(g: Gate, step: Step) {
    match step
    case Acquire(d, _) => d !in g.waiters && d !in g.holders
    case TimeOut(d) => d in g.waiters
    case Release(d) => d in g.holders
  }

  function Next(g: Gate, step: Step, maxConcurrency: nat): Gate {
    match step
    case Acquire(d, expired) =>
      if g.active < maxConcurrency then Gate(g.active + 1, g.waiters, g.holders + {d})
      else if expired then g
      else g.(waiters := g.waiters + [d])
    case TimeOut(d) => g.(waiters := Remove(g.waiters, d))
    case Release(d) =>
      if g.waiters != [] then Gate(g.active, g.waiters[1..], g.holders - {d} + {g.waiters[0]})
      else Gate(g.active - 1, [], g.holders - {d})
  }

  ghost predicate Run(g: Gate, steps: seq<Step>, last: Gate, maxConcurrency: nat)
    decreases |steps|
  {
    if steps == [] then last == g
    else Enabled(g, steps[0]) && Run(Next(g, steps[0], maxConcurrency), steps[1..], last, maxConcurrency)
  }

  predicate Distinct(waiters: seq<nat>) {
    forall i, j :: 0 <= i < j < |waiters| ==> waiters[i] != waiters[j]
  }

  predicate Sound(g: Gate, maxConcurrency: nat) {
    && g.active == |g.holders| <= maxConcurrency
    && (g.waiters != [] ==> g.active == maxConcurrency)
    && Distinct(g.waiters) && forall w :: w in g.waiters ==> w !in g.holders
  }

  // Whether a is queued ahead of b.
  predicate Ahead(waiters: seq<nat>, a: nat, b: nat) {
    exists i, j :: 0 <= i < j < |waiters| && waiters[i] == a && waiters[j] == b
  }

  lemma {:induction false} Removed(waiters: seq<nat>, d: nat)
    requires Distinct(waiters)
    ensures Distinct(Remove(waiters, d))
    ensures forall w :: w in Remove(waiters, d) <==> w in waiters && w != d
    ensures |Remove(waiters, d)| == if d in waiters then |waiters| - 1 else |waiters|
  {
    if waiters != [] {
      assert waiters == [waiters[0]] + waiters[1..];
      assert Distinct(waiters[1..]);
      Removed(waiters[1..], d);
      var rest := Remove(waiters[1..], d);
      forall j | 0 <= j < |rest|
        ensures rest[j] != waiters[0]
      {
        assert rest[j] in waiters[1..];
      }
    }
  }

  // A time-out leaves the order of the others alone.
  lemma {:induction false} RemovedKeepsOrder(waiters: seq<nat>, d: nat, a: nat, b: nat)
    requires Distinct(waiters) && a != d && b != d
    ensures Ahead(Remove(waiters, d), a, b) <==> Ahead(waiters, a, b)
  {
    if waiters != [] {
      var rest := waiters[1..];
      assert waiters == [waiters[0]] + rest;
      assert Distinct(rest);
      RemovedKeepsOrder(rest, d, a, b);
      Removed(rest, d);
      AheadOfRest(waiters[0], rest, a, b);
      AheadOfRest(waiters[0], Remove(rest, d), a, b);
    }
  }

  lemma AheadOfRest(first: nat, rest: seq<nat>, a: nat, b: nat)
    ensures Ahead([first] + rest, a, b) <==> (first == a && b in rest) || Ahead(rest, a, b)
  {
    var all := [first] + rest;
    if Ahead(all, a, b) {
      var i, j :| 0 <= i < j < |all| && all[i] == a && all[j] == b;
      assert b == rest[j - 1];
      if i > 0 {
        assert rest[i - 1] == a;
      }
    }
    if first == a && b in rest {
      var j :| 0 <= j < |rest| && rest[j] == b;
      assert all[0] == a && all[j + 1] == b;
    }
    if Ahead(rest, a, b) {
      var i, j :| 0 <= i < j < |rest| && rest[i] == a && rest[j] == b;
      assert all[i + 1] == a && all[j + 1] == b;
    }
  }

  lemma StepKeepsSound(g: Gate, step: Step, maxConcurrency: nat)
    requires Sound(g, maxConcurrency) && Enabled(g, step)
    ensures Sound(Next(g, step, maxConcurrency), maxConcurrency)
  {
    match step
    case Acquire(d, expired) =>
    case TimeOut(d) => Removed(g.waiters, d);
    case Release(d) =>
      if g.waiters != [] {
        assert |g.holders - {d} + {g.waiters[0]}| == |g.holders|;
      }
  }

  // In every interleaving the counter is the number of permit holders, never above the maximum,
  // and nobody waits while a permit is free.
  lemma {:induction false} RunsKeepSound(g: Gate, steps: seq<Step>, last: Gate, maxConcurrency: nat)
    requires Sound(g, maxConcurrency) && Run(g, steps, last, maxConcurrency)
    ensures Sound(last, maxConcurrency)
    decreases |steps|
  {
    if steps != [] {
      StepKeepsSound(g, steps[0], maxConcurrency);
      RunsKeepSound(Next(g, steps[0], maxConcurrency), steps[1..], last, maxConcurrency);
    }
  }

  // A time-out neither gains nor loses a permit, and takes only its own waiter from the queue.
  lemma TimeOutKeepsPermits(g: Gate, d: nat, maxConcurrency: nat)
    requires Sound(g, maxConcurrency) && Enabled(g, TimeOut(d))
    ensures var n := Next(g, TimeOut(d), maxConcurrency);
            && n.active == g.active && n.holders == g.holders
            && (forall w :: w in n.waiters <==> w in g.waiters && w != d)
            && (forall a, b :: a != d && b != d ==> (Ahead(n.waiters, a, b) <==> Ahead(g.waiters, a, b)))
  {
    Removed(g.waiters, d);
    forall a, b | a != d && b != d
      ensures Ahead(Next(g, TimeOut(d), maxConcurrency).waiters, a, b) <==> Ahead(g.waiters, a, b)
    {
      RemovedKeepsOrder(g.waiters, d, a, b);
    }
  }

  /*** First come, first served ***/

  lemma StepKeepsOrder(g: Gate, step: Step, maxConcurrency: nat, a: nat, b: nat)
    requires Sound(g, maxConcurrency) && Enabled(g, step) && Ahead(g.waiters, a, b)
    ensures var n := Next(g, step, maxConcurrency);
            && b !in n.holders
            && (a in n.waiters && b in n.waiters ==> Ahead(n.waiters, a, b))
            && (a !in n.waiters ==> step == TimeOut(a) || a in n.holders)
            && (b !in n.waiters ==> step == TimeOut(b))
  {
    var i, j :| 0 <= i < j < |g.waiters| && g.waiters[i] == a && g.waiters[j] == b;
    match step
    case Acquire(d, expired) =>
    case TimeOut(d) =>
      Removed(g.waiters, d);
      if a != d && b != d {
        RemovedKeepsOrder(g.waiters, d, a, b);
      }
    case Release(d) =>
      assert g.waiters[1..][j - 1] == b;
      if i > 0 {
        assert g.waiters[1..][i - 1] == a;
      }
  }

  // Along any run, a download is not given its permit while one that queued before it still waits.
  lemma {:induction false} FirstComeFirstServed(g: Gate, steps: seq<Step>, last: Gate, maxConcurrency: nat, a: nat, b: nat)
    requires Sound(g, maxConcurrency) && Run(g, steps, last, maxConcurrency) && Ahead(g.waiters, a, b)
    requires forall i :: 0 <= i < |steps| ==> !(steps[i].Acquire? && steps[i].download in {a, b})
    ensures a in last.waiters ==> b !in last.holders
    ensures a in last.waiters && b in last.waiters ==> Ahead(last.waiters, a, b)
    decreases |steps|
  {
    hide Sound, Next, Enabled;
    if steps != [] {
      var n := Next(g, steps[0], maxConcurrency);
      StepKeepsSound(g, steps[0], maxConcurrency);
      StepKeepsOrder(g, steps[0], maxConcurrency, a, b);
      if a !in n.waiters {
        GoneStaysGone(n, steps[1..], last, maxConcurrency, a);
      } else if b !in n.waiters {
        NeverServed(n, steps[1..], last, maxConcurrency, b);
      } else {
        FirstComeFirstServed(n, steps[1..], last, maxConcurrency, a, b);
      }
    } else {
      WaitersHoldNothing(g, maxConcurrency);
    }
  }

  lemma WaitersHoldNothing(g: Gate, maxConcurrency: nat)
    requires Sound(g, maxConcurrency)
    ensures forall d :: d in g.waiters ==> d !in g.holders
  {
  }

  lemma {:induction false} GoneStaysGone(g: Gate, steps: seq<Step>, last: Gate, maxConcurrency: nat, a: nat)
    requires Sound(g, maxConcurrency) && Run(g, steps, last, maxConcurrency) && a !in g.waiters
    requires forall i :: 0 <= i < |steps| ==> !(steps[i].Acquire? && steps[i].download == a)
    ensures a !in last.waiters
    decreases |steps|
  {
    if steps != [] {
      StepKeepsSound(g, steps[0], maxConcurrency);
      if steps[0].TimeOut? {
        Removed(g.waiters, steps[0].download);
      }
      GoneStaysGone(Next(g, steps[0], maxConcurrency), steps[1..], last, maxConcurrency, a);
    }
  }

  lemma {:induction false} NeverServed(g: Gate, steps: seq<Step>, last: Gate, maxConcurrency: nat, b: nat)
    requires Sound(g, maxConcurrency) && Run(g, steps, last, maxConcurrency) && b !in g.waiters && b !in g.holders
    requires forall i :: 0 <= i < |steps| ==> !(steps[i].Acquire? && steps[i].download == b)
    ensures b !in last.holders && b !in last.waiters
    decreases |steps|
  {
    if steps != [] {
      StepKeepsSound(g, steps[0], maxConcurrency);
      if steps[0].TimeOut? {
        Removed(g.waiters, steps[0].download);
      }
      NeverServed(Next(g, steps[0], maxConcurrency), steps[1..], last, maxConcurrency, b);
    }
  }

  function Releases(steps: seq<Step>): nat {
    if steps == [] then 0 else (if steps[0].Release? then 1 else 0) + Releases(steps[1..])
  }

  // Bounded waiting: a waiter with p others ahead has its permit by the (p + 1)th release at the
  // latest, unless it times out.
  lemma {:induction false} ServedWithinItsPlace(g: Gate, steps: seq<Step>, last: Gate, maxConcurrency: nat, p: nat)
    requires Sound(g, maxConcurrency) && Run(g, steps, last, maxConcurrency) && p < |g.waiters|
    requires forall i :: 0 <= i < |steps| ==> steps[i] != TimeOut(g.waiters[p])
    requires Releases(steps) > p
    ensures exists n :: 0 <= n <= |steps| && HoldsAt(g, steps, n, maxConcurrency, g.waiters[p])
    decreases |steps|
  {
    var d, n := g.waiters[p], Next(g, steps[0], maxConcurrency);
    StepKeepsSound(g, steps[0], maxConcurrency);
    match steps[0] {
      case Acquire(_, _) =>
        assert n.waiters[p] == d;
        ServedWithinItsPlace(n, steps[1..], last, maxConcurrency, p);
        LaterHold(g, steps, maxConcurrency, d);
      case TimeOut(other) =>
        Removed(g.waiters, other);
        var q := PlaceAfterRemoval(g.waiters, other, p);
        ServedWithinItsPlace(n, steps[1..], last, maxConcurrency, q);
        LaterHold(g, steps, maxConcurrency, d);
      case Release(_) =>
        if p == 0 {
          assert HoldsAt(n, steps[1..], 0, maxConcurrency, d);
          LaterHold(g, steps, maxConcurrency, d);
        } else {
          assert n.waiters[p - 1] == d;
          ServedWithinItsPlace(n, steps[1..], last, maxConcurrency, p - 1);
          LaterHold(g, steps, maxConcurrency, d);
        }
    }
  }

  // Whether the download holds a permit after n of the steps.
  ghost predicate HoldsAt(g: Gate, steps: seq<Step>, n: nat, maxConcurrency: nat, d: nat)
    requires n <= |steps|
    decreases n
  {
    if n == 0 then d in g.holders else HoldsAt(Next(g, steps[0], maxConcurrency), steps[1..], n - 1, maxConcurrency, d)
  }

  lemma LaterHold(g: Gate, steps: seq<Step>, maxConcurrency: nat, d: nat)
    requires steps != []
    requires exists n :: 0 <= n <= |steps[1..]| && HoldsAt(Next(g, steps[0], maxConcurrency), steps[1..], n, maxConcurrency, d)
    ensures exists n :: 0 <= n <= |steps| && HoldsAt(g, steps, n, maxConcurrency, d)
  {
    var n :| 0 <= n <= |steps[1..]| && HoldsAt(Next(g, steps[0], maxConcurrency), steps[1..], n, maxConcurrency, d);
    assert HoldsAt(g, steps, n + 1, maxConcurrency, d);
  }

  lemma {:induction false} PlaceAfterRemoval(waiters: seq<nat>, other: nat, p: nat) returns (q: nat)
    requires Distinct(waiters) && p < |waiters| && other in waiters && waiters[p] != other
    ensures q <= p && q < |Remove(waiters, other)| && Remove(waiters, other)[q] == waiters[p]
  {
    assert waiters == [waiters[0]] + waiters[1..];
    if waiters[0] == other {
      q := p - 1;
    } else if p == 0 {
      q := 0;
    } else {
      assert Distinct(waiters[1..]);
      var r := PlaceAfterRemoval(waiters[1..], other, p - 1);
      q := r + 1;
    }
  }

  /*** The gateway's fields ***/

  datatype Admission = Admitted | Refused | Queued

  class PermitGate {
    const maxConcurrency: nat
    var active: int
    var waiters: seq<nat>
    ghost var holders: set<nat>

    ghost function View(): Gate
      reads this
    {
      Gate(active, waiters, holders)
    }

    constructor (maxConcurrency: nat)
      ensures this.maxConcurrency == maxConcurrency && View() == Gate(0, [], {}) && Sound(View(), maxConcurrency)
    {
      this.maxConcurrency := maxConcurrency;
      active, waiters, holders := 0, [], {};
    }

    method Acquire(download: nat, remaining: int) returns (admission: Admission)
      requires Sound(View(), maxConcurrency) && Enabled(View(), Step.Acquire(download, remaining <= 0))
      modifies this
      ensures View() == Next(old(View()), Step.Acquire(download, remaining <= 0), maxConcurrency)
      ensures Sound(View(), maxConcurrency)
      ensures admission.Admitted? <==> download in holders
      ensures admission.Queued? <==> download in waiters
    {
      StepKeepsSound(View(), Step.Acquire(download, remaining <= 0), maxConcurrency);
      if active < maxConcurrency {
        active := active + 1;
        holders := holders + {download};
        return Admitted;
      }
      if remaining <= 0 {
        return Refused;
      }
      waiters := waiters + [download];
      admission := Queued;
    }

    // The timer of a waiter: it leaves the queue if it is still there.
    method TimeOut(download: nat)
      requires Sound(View(), maxConcurrency) && Enabled(View(), Step.TimeOut(download))
      modifies this`waiters
      ensures View() == Next(old(View()), Step.TimeOut(download), maxConcurrency) && Sound(View(), maxConcurrency)
    {
      StepKeepsSound(View(), Step.TimeOut(download), maxConcurrency);
      waiters := Remove(waiters, download);
    }

    method Release(ghost download: nat) returns (handedTo: Option<nat>)
      requires Sound(View(), maxConcurrency) && Enabled(View(), Step.Release(download))
      modifies this
      ensures View() == Next(old(View()), Step.Release(download), maxConcurrency) && Sound(View(), maxConcurrency)
      ensures handedTo == if old(waiters) == [] then None else Some(old(waiters)[0])
      ensures handedTo.Some? ==> handedTo.value in holders
    {
      StepKeepsSound(View(), Step.Release(download), maxConcurrency);
      holders := holders - {download};
      if |waiters| > 0 {
        var waiter := waiters[0];
        waiters := waiters[1..];
        holders := holders + {waiter};
        return Some(waiter);
      }
      active := active - 1;
      handedTo := None;
    }
  }
}
