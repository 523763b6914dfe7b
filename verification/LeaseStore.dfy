/** internal/lease/store.go: leases fenced by per-resource epochs. */
module LeaseStore {
  import opened BackupModel

  datatype Leases = Leases(leases: map<string, Lease>, epochs: map<string, nat>)

  function Epoch(s: Leases, resource: string): nat {
    if resource in s.epochs then s.epochs[resource] else 0
  }

  predicate Held(s: Leases, resource: string, now: int) {
    resource in s.leases && !s.leases[resource].released && now < s.leases[resource].deadline
  }

  function Acquired(s: Leases, resource: string, owner: string, now: int, ttl: int): Leases {
    if Held(s, resource, now) then s
    else
      var epoch := Epoch(s, resource) + 1;
      Leases(s.leases[resource := Lease(resource, owner, epoch, now + ttl, false)], s.epochs[resource := epoch])
  }

  predicate Validates(s: Leases, resource: string, owner: string, epoch: nat, now: int) {
    && resource in s.leases && !s.leases[resource].released && s.leases[resource].owner == owner
    && s.leases[resource].epoch == epoch && now < s.leases[resource].deadline
  }

  predicate Releasable(s: Leases, resource: string, owner: string, epoch: nat) {
    && resource in s.leases && s.leases[resource].owner == owner && s.leases[resource].epoch == epoch
    && !s.leases[resource].released
  }

  function Released(s: Leases, resource: string, owner: string, epoch: nat): Leases {
    if Releasable(s, resource, owner, epoch)
    then s.(leases := s.leases[resource := s.leases[resource].(released := true)]) else s
  }

  /** The lease of a resource carries the resource's current epoch. */
  ghost predicate Inv(s: Leases) {
    s.leases.Keys == s.epochs.Keys &&
    forall r :: r in s.leases ==> s.leases[r].resource == r && s.leases[r].epoch == s.epochs[r] && s.epochs[r] >= 1
  }

  class Store {
    var leases: map<string, Lease>
    var epochs: map<string, nat>

    ghost function Contents(): Leases
      reads this
    {
      Leases(leases, epochs)
    }

    constructor ()
      ensures Contents() == Leases(map[], map[]) && Inv(Contents())
    {
      leases, epochs := map[], map[];
    }

    method Acquire(resource: string, owner: string, now: int, ttl: int) returns (r: Result<Lease>)
      requires Inv(Contents())
      modifies this
      ensures Inv(Contents()) && Contents() == Acquired(old(Contents()), resource, owner, now, ttl)
      ensures if Held(old(Contents()), resource, now) then r == Err(ErrLeaseHeld)
              else r.Ok? && resource in leases && r.value == leases[resource]
    {
      if resource in leases && !leases[resource].released && now < leases[resource].deadline {
        return Err(ErrLeaseHeld);
      }
      var epoch := (if resource in epochs then epochs[resource] else 0) + 1;
      epochs := epochs[resource := epoch];
      var lease := Lease(resource, owner, epoch, now + ttl, false);
      leases := leases[resource := lease];
      r := Ok(lease);
    }

    method Validate(resource: string, owner: string, epoch: nat, now: int) returns (ok: bool)
      ensures ok <==> Validates(Contents(), resource, owner, epoch, now)
    {
      if resource !in leases {
        return false;
      }
      var lease := leases[resource];
      ok := !(lease.released || lease.owner != owner || lease.epoch != epoch || !(now < lease.deadline));
    }

    method Release(resource: string, owner: string, epoch: nat) returns (ok: bool)
      requires Inv(Contents())
      modifies this
      ensures Inv(Contents()) && Contents() == Released(old(Contents()), resource, owner, epoch)
      ensures ok <==> Releasable(old(Contents()), resource, owner, epoch)
    {
      if resource !in leases {
        return false;
      }
      var lease := leases[resource];
      if lease.owner != owner || lease.epoch != epoch || lease.released {
        return false;
      }
      leases := leases[resource := lease.(released := true)];
      ok := true;
    }
  }

  // ---------- fencing over whole runs, one store call at a time ----------

  datatype Call =
    | AcquireCall(resource: string, owner: string, now: int, ttl: int)
    | ReleaseCall(resource: string, owner: string, epoch: nat)

  function Step(s: Leases, call: Call): Leases {
    match call
    case AcquireCall(r, owner, now, ttl) => Acquired(s, r, owner, now, ttl)
    case ReleaseCall(r, owner, epoch) => Released(s, r, owner, epoch)
  }

  function Run(s: Leases, calls: seq<Call>): Leases
    decreases |calls|
  {
    if calls == [] then s else Run(Step(s, calls[0]), calls[1..])
  }

  /** The epoch is released or superseded. */
  predicate Dead(s: Leases, resource: string, epoch: nat) {
    resource in s.leases &&
    (s.leases[resource].epoch > epoch || (s.leases[resource].epoch == epoch && s.leases[resource].released))
  }

  lemma AcquiredKeepsDead(s: Leases, r: string, owner: string, now: int, ttl: int, resource: string, epoch: nat)
    requires Inv(s) && Dead(s, resource, epoch)
    ensures Dead(Acquired(s, r, owner, now, ttl), resource, epoch)
  {
  }

  lemma ReleasedKeepsDead(s: Leases, r: string, owner: string, e: nat, resource: string, epoch: nat)
    requires Dead(s, resource, epoch)
    ensures Dead(Released(s, r, owner, e), resource, epoch)
  {
  }

  lemma {:induction false} RunKeepsDead(s: Leases, calls: seq<Call>, resource: string, epoch: nat)
    requires Inv(s)
    ensures Inv(Run(s, calls))
    ensures Dead(s, resource, epoch) ==> Dead(Run(s, calls), resource, epoch)
    decreases |calls|
  {
    if calls != [] {
      RunKeepsDead(Step(s, calls[0]), calls[1..], resource, epoch);
    }
  }

  /** At any state at most one (owner, epoch) of a resource validates, at whatever times; an epoch that
      has been released, or below one that was acquired, never validates in any continuation. */
  lemma EpochsFence(
    s: Leases, calls: seq<Call>, resource: string, a: string, ea: nat, b: string, eb: nat, now: int, ttl: int,
    later: int)
    requires Inv(s)
    ensures Validates(s, resource, a, ea, now) && Validates(s, resource, b, eb, later) ==> a == b && ea == eb
    ensures Releasable(s, resource, a, ea) ==>
              !Validates(Run(Released(s, resource, a, ea), calls), resource, b, ea, later)
    ensures !Held(s, resource, now) && eb <= Epoch(s, resource) ==>
              !Validates(Run(Acquired(s, resource, a, now, ttl), calls), resource, b, eb, later)
  {
    if Releasable(s, resource, a, ea) {
      RunKeepsDead(Released(s, resource, a, ea), calls, resource, ea);
    }
    if !Held(s, resource, now) && eb <= Epoch(s, resource) {
      RunKeepsDead(Acquired(s, resource, a, now, ttl), calls, resource, eb);
    }
  }

  // ---------- a granted lease lasts ----------

  /** A call that can neither end this lease nor take the resource over before its deadline. */
  predicate Respects(call: Call, lease: Lease) {
    match call
    case AcquireCall(r, _, now, _) => r == lease.resource ==> now < lease.deadline
    case ReleaseCall(r, owner, epoch) => !(r == lease.resource && owner == lease.owner && epoch == lease.epoch)
  }

  lemma {:induction false} LeaseLasts(s: Leases, calls: seq<Call>, lease: Lease)
    requires lease.resource in s.leases && s.leases[lease.resource] == lease && !lease.released
    requires forall i :: 0 <= i < |calls| ==> Respects(calls[i], lease)
    ensures lease.resource in Run(s, calls).leases && Run(s, calls).leases[lease.resource] == lease
    decreases |calls|
  {
    if calls != [] {
      assert Respects(calls[0], lease);
      LeaseLasts(Step(s, calls[0]), calls[1..], lease);
    }
  }

  /** A lease granted at `now` validates for its owner under the next epoch exactly until `now + ttl`, in
      every run that does not release it and does not ask for the resource at or after that time. Then
      the resource is free. */
  lemma FreshLeaseLasts(
    s: Leases, resource: string, owner: string, now: int, ttl: int, calls: seq<Call>, later: int, other: string)
    requires !(resource in s.leases && !s.leases[resource].released && now < s.leases[resource].deadline)
    requires forall i :: 0 <= i < |calls| ==>
      Respects(calls[i], Lease(resource, owner, Epoch(s, resource) + 1, now + ttl, false))
    ensures var v := Run(Acquired(s, resource, owner, now, ttl), calls);
      && (Validates(v, resource, owner, Epoch(s, resource) + 1, later) <==> later < now + ttl)
      && (Acquired(v, resource, other, later, ttl) == v <==> later < now + ttl)
  {
    var lease := Lease(resource, owner, Epoch(s, resource) + 1, now + ttl, false);
    var v := Run(Acquired(s, resource, owner, now, ttl), calls);
    LeaseLasts(Acquired(s, resource, owner, now, ttl), calls, lease);
    if later >= now + ttl {
      assert Acquired(v, resource, other, later, ttl).epochs[resource] == Epoch(v, resource) + 1;
      assert Epoch(Acquired(v, resource, other, later, ttl), resource) != Epoch(v, resource);
    }
  }
}
