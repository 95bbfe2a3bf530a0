// The file lease lock: one lock file, owner-scoped heartbeats, and recovery of a lock whose owner
// process is gone. Each method is one step; processes come and go in between, and process numbers
// are used again.
module FileLease {
  import opened Prelude

  // One lifetime of a process; two lifetimes never share all three.
  datatype Process = Process(hostname: string, pid: nat, identity: string)

  // The lock file. The identity is missing when it could not be read.
  datatype Metadata = Metadata(token: nat, pid: nat, hostname: string, identity: Option<string>, createdAt: int)

  datatype Disk = Disk(lock: Option<Metadata>, heartbeats: map<nat, int>)

  // What a process can find out about another process number on its host.
  datatype Probe = Probe(alive: bool, identity: Option<string>)

  datatype Lease = Lease(owner: Process, released: bool)

  datatype World = World(disk: Disk, alive: set<Process>, leases: map<nat, Lease>)

  /*** Recovery ***/

  function Heartbeat(disk: Disk): int
    requires disk.lock.Some?
  {
    if disk.lock.value.token in disk.heartbeats then disk.heartbeats[disk.lock.value.token] else disk.lock.value.createdAt
  }

  // Whether a process on the host may take the lock file away.
  predicate Recoverable(disk: Disk, hostname: string, probe: Probe, staleAfterMs: nat, now: int) {
    disk.lock.Some?
    && var m := disk.lock.value;
       && now - Heartbeat(disk) > staleAfterMs
       && m.hostname == hostname
       && (!probe.alive || (m.identity.Some? && m.identity.value != "" && probe.identity.Some? && probe.identity != m.identity))
  }

  // The lock has been silent for too long: no heartbeat, nor its creation while there is none, since then.
  predicate Silent(disk: Disk, staleAfterMs: nat, now: int) {
    && disk.lock.Some?
    && var token := disk.lock.value.token;
       && (token in disk.heartbeats ==> disk.heartbeats[token] < now - staleAfterMs)
       && (token !in disk.heartbeats ==> disk.lock.value.createdAt < now - staleAfterMs)
  }

  // Its owner was on this host, and the process number is free or known to be another process's.
  predicate SeenGone(disk: Disk, hostname: string, probe: Probe) {
    && disk.lock.Some? && disk.lock.value.hostname == hostname
    && match (disk.lock.value.identity, probe.identity)
       case (Some(recorded), Some(seen)) => !probe.alive || (recorded != "" && seen != recorded)
       case _ => !probe.alive
  }

  function WithoutLock(disk: Disk): Disk
    requires disk.lock.Some?
  {
    Disk(None, disk.heartbeats - {disk.lock.value.token})
  }

  // Each attempt creates the file with a token and a time of its own.
  datatype Attempt = Attempt(token: nat, at: int)

  // The token is that of the attempt that created the file, if one did.
  datatype Acquired = Acquired(disk: Disk, token: Option<nat>)

  function MetadataOf(attempt: Attempt, pid: nat, hostname: string, identity: Option<string>): Metadata {
    Metadata(attempt.token, pid, hostname, identity, attempt.at)
  }

  function CreatedOn(disk: Disk, m: Metadata): Disk {
    Disk(Some(m), disk.heartbeats[m.token := m.createdAt])
  }

  // acquire(): create the file, or recover a stale one and create it at the second attempt.
  function AcquireOn(disk: Disk, first: Metadata, second: Metadata, probe: Probe, staleAfterMs: nat, now: int): Acquired {
    if disk.lock.None? then Acquired(CreatedOn(disk, first), Some(first.token))
    else if Recoverable(disk, first.hostname, probe, staleAfterMs, now) then
      Acquired(CreatedOn(WithoutLock(disk), second), Some(second.token))
    else Acquired(disk, None)
  }

  function RenewOn(disk: Disk, token: nat, now: int): Option<Disk> {
    if disk.lock.Some? && disk.lock.value.token == token then Some(disk.(heartbeats := disk.heartbeats[token := now])) else None
  }

  function ReleaseOn(disk: Disk, token: nat): Disk {
    Disk(if disk.lock.Some? && disk.lock.value.token == token then None else disk.lock, disk.heartbeats - {token})
  }

  class FileLeaseLock {
    const hostname: string
    const pid: nat
    const identity: Option<string>
    const staleAfterMs: nat
    var disk: Disk

    constructor (hostname: string, pid: nat, identity: Option<string>, staleAfterMs: nat, disk: Disk)
      ensures this.hostname == hostname && this.pid == pid && this.identity == identity
      ensures this.staleAfterMs == staleAfterMs && this.disk == disk
    {
      this.hostname, this.pid, this.identity, this.staleAfterMs, this.disk := hostname, pid, identity, staleAfterMs, disk;
    }

    method RecoverStaleLock(probe: Probe, now: int) returns (recovered: bool)
      modifies this
      ensures recovered <==> Recoverable(old(disk), hostname, probe, staleAfterMs, now)
      ensures disk == if recovered then WithoutLock(old(disk)) else old(disk)
      ensures recovered <==> Silent(old(disk), staleAfterMs, now) && SeenGone(old(disk), hostname, probe)
      ensures recovered ==> disk.lock == None && disk.heartbeats == old(disk).heartbeats - {old(disk).lock.value.token}
    {
      if disk.lock.None? {
        return false;
      }
      var m := disk.lock.value;
      if now - Heartbeat(disk) <= staleAfterMs || m.hostname != hostname {
        return false;
      }
      if probe.alive {
        if m.identity.None? || m.identity.value == "" || probe.identity.None? || probe.identity == m.identity {
          return false;
        }
      }
      disk := Disk(None, disk.heartbeats - {m.token});
      recovered := true;
    }

    method Acquire(first: Attempt, second: Attempt, probe: Probe, now: int) returns (token: Option<nat>)
      modifies this
      ensures Acquired(disk, token) == AcquireOn(old(disk), MetadataOf(first, pid, hostname, identity),
                                                 MetadataOf(second, pid, hostname, identity), probe, staleAfterMs, now)
      ensures token.Some? <==> old(disk).lock == None || (Silent(old(disk), staleAfterMs, now) && SeenGone(old(disk), hostname, probe))
      ensures token.Some? ==>
                var attempt := if old(disk).lock == None then first else second;
                && token.value == attempt.token
                && disk.lock == Some(Metadata(attempt.token, pid, hostname, identity, attempt.at))
                && attempt.token in disk.heartbeats && disk.heartbeats[attempt.token] == attempt.at
      ensures token.None? ==> disk == old(disk)
    {
      var attempt := 0;
      while attempt < 2
        invariant 0 <= attempt <= 2
        invariant attempt == 0 ==> disk == old(disk)
        invariant attempt == 1 ==> Recoverable(old(disk), hostname, probe, staleAfterMs, now) && disk == WithoutLock(old(disk))
        invariant attempt < 2
      {
        var m := MetadataOf(if attempt == 0 then first else second, pid, hostname, identity);
        if disk.lock.None? {
          disk := Disk(Some(m), disk.heartbeats[m.token := m.createdAt]);
          return Some(m.token);
        }
        var recovered := RecoverStaleLock(probe, now);
        if !recovered {
          return None;
        }
        attempt := attempt + 1;
      }
      token := None;
    }

    method Renew(token: nat, now: int) returns (renewed: bool)
      modifies this
      ensures renewed <==> old(disk).lock.Some? && old(disk).lock.value.token == token
      ensures renewed ==> disk.lock == old(disk).lock && disk.heartbeats == old(disk).heartbeats[token := now]
      ensures !renewed ==> disk == old(disk) && RenewOn(old(disk), token, now).None?
      ensures renewed ==> RenewOn(old(disk), token, now) == Some(disk)
    {
      if disk.lock.None? || disk.lock.value.token != token {
        return false;
      }
      disk := disk.(heartbeats := disk.heartbeats[token := now]);
      renewed := true;
    }

    method Release(token: nat)
      modifies this
      ensures disk == ReleaseOn(old(disk), token)
      ensures disk.heartbeats == old(disk).heartbeats - {token}
      ensures disk.lock == (match old(disk).lock
                            case None => None
                            case Some(m) => if m.token == token then None else Some(m))
    {
      if disk.lock.Some? && disk.lock.value.token == token {
        disk := disk.(lock := None);
      }
      disk := disk.(heartbeats := disk.heartbeats - {token});
    }
  }

  /*** Many processes ***/

  datatype Step =
    | Start(process: Process)
    | Die(process: Process)
    | Acquire(process: Process, first: Attempt, second: Attempt, readable: bool, probe: Probe, staleAfterMs: nat, now: int)
    | Renew(token: nat, now: int)
    | Release(token: nat)

  function IdentityOf(p: Process, readable: bool): Option<string> {
    if readable then Some(p.identity) else None
  }

  // The probe tells the truth about the lock owner's process number, or cannot read an identity.
  predicate Truthful(w: World, hostname: string, probe: Probe) {
    w.disk.lock.Some? ==>
      forall p | p in w.alive && p.hostname == hostname && p.pid == w.disk.lock.value.pid ::
        probe.alive && (probe.identity.None? || probe.identity == Some(p.identity))
  }

  predicate Enabled(w: World, step: Step) {
    match step
    case Start(p) => forall q | q in w.alive :: !(q.hostname == p.hostname && q.pid == p.pid)
    case Die(p) => p in w.alive
    case Acquire(p, first, second, _, probe, _, _) =>
      p in w.alive && first.token !in w.leases && second.token !in w.leases && Truthful(w, p.hostname, probe)
    case Renew(token, _) => token in w.leases && !w.leases[token].released
    case Release(token) => token in w.leases && !w.leases[token].released
  }

  function Next(w: World, step: Step): World
    requires Enabled(w, step)
  {
    match step
    case Start(p) => w.(alive := w.alive + {p})
    case Die(p) => w.(alive := w.alive - {p})
    case Acquire(p, first, second, readable, probe, staleAfterMs, now) =>
      var identity := IdentityOf(p, readable);
      var r := AcquireOn(w.disk, MetadataOf(first, p.pid, p.hostname, identity), MetadataOf(second, p.pid, p.hostname, identity),
                         probe, staleAfterMs, now);
      w.(disk := r.disk, leases := if r.token.Some? then w.leases[r.token.value := Lease(p, false)] else w.leases)
    case Renew(token, now) =>
      var r := RenewOn(w.disk, token, now);
      if r.Some? then w.(disk := r.value) else w
    case Release(token) =>
      w.(disk := ReleaseOn(w.disk, token), leases := w.leases[token := w.leases[token].(released := true)])
  }

  ghost predicate Run(w: World, steps: seq<Step>, last: World)
    decreases |steps|
  {
    if steps == [] then last == w else Enabled(w, steps[0]) && Run(Next(w, steps[0]), steps[1..], last)
  }

  // The lease is held: not released, and its process still runs.
  predicate Held(w: World, token: nat) {
    token in w.leases && !w.leases[token].released && w.leases[token].owner in w.alive
  }

  // A held lease is the one on disk, under its owner's number, host and (if known) identity.
  predicate Sound(w: World) {
    && (forall token | token in w.leases && Held(w, token) ::
          var owner := w.leases[token].owner;
          w.disk.lock.Some? && var m := w.disk.lock.value;
             m.token == token && m.pid == owner.pid && m.hostname == owner.hostname
             && (m.identity.None? || m.identity == Some(owner.identity)))
    && (forall p, q | p in w.alive && q in w.alive :: p.hostname == q.hostname && p.pid == q.pid ==> p == q)
  }

  // Lifetimes differ: a process that starts is none of those that own leases.
  predicate FreshLifetime(w: World, step: Step) {
    step.Start? ==> forall token | token in w.leases :: w.leases[token].owner != step.process
  }

  lemma StepKeepsSound(w: World, step: Step)
    requires Sound(w) && Enabled(w, step) && FreshLifetime(w, step)
    ensures Sound(Next(w, step))
  {
  }

  ghost predicate FreshLifetimes(w: World, steps: seq<Step>)
    decreases |steps|
  {
    steps != [] && Enabled(w, steps[0]) ==> FreshLifetime(w, steps[0]) && FreshLifetimes(Next(w, steps[0]), steps[1..])
  }

  // However processes start, die, acquire, renew and release, never do two live processes hold the
  // lock, and a held lock is never taken away.
  lemma {:induction false} AtMostOneHolder(w: World, steps: seq<Step>, last: World)
    requires Sound(w) && Run(w, steps, last) && FreshLifetimes(w, steps)
    ensures Sound(last)
    ensures forall a, b :: Held(last, a) && Held(last, b) ==> a == b
    decreases |steps|
  {
    if steps != [] {
      StepKeepsSound(w, steps[0]);
      AtMostOneHolder(Next(w, steps[0]), steps[1..], last);
    }
  }

  // A lock file is taken away exactly if it has been silent for too long and its owner is seen to be
  // gone, and then the taker holds the one it creates; a fresh lock, or one of another host, stays.
  lemma LocksAreTakenExactly(w: World, step: Step)
    requires Sound(w) && step.Acquire? && Enabled(w, step) && w.disk.lock.Some?
    ensures var n := Next(w, step);
            if Silent(w.disk, step.staleAfterMs, step.now) && SeenGone(w.disk, step.process.hostname, step.probe)
            then && Held(n, step.second.token) && n.disk.lock.Some? && n.disk.lock.value.token == step.second.token
                 && n.disk.heartbeats == (w.disk.heartbeats - {w.disk.lock.value.token})[step.second.token := step.second.at]
            else n == w
  {
  }

  // The lock of a dead owner whose heartbeat is stale can be taken on its host.
  lemma DeadOwnersAreReplaced(w: World, p: Process, first: Attempt, second: Attempt, readable: bool, probe: Probe,
                              staleAfterMs: nat, now: int)
    requires Sound(w) && Enabled(w, Acquire(p, first, second, readable, probe, staleAfterMs, now))
    requires w.disk.lock.Some? && w.disk.lock.value.hostname == p.hostname && !probe.alive && Silent(w.disk, staleAfterMs, now)
    ensures Held(Next(w, Acquire(p, first, second, readable, probe, staleAfterMs, now)), second.token)
  {
  }
}
