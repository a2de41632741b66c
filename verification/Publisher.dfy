/** The publisher's loop of one gateway, after internal/routing/publisher.go, on a lease registry that
    no other gateway writes meanwhile. Module Routing has the interleaving of several. */
module RoutePublisher {
  import opened GoStrings
  import opened Leases
  import Ownership
  import opened Sequences
  import opened Wrappers

  function EntryOf(entries: map<int, Entry>, p: int): Option<Entry> {
    if p in entries then Some(entries[p]) else None
  }

  /** A registry that never fails. */
  predicate NeverDown(p: int) {
    false
  }

  class Publisher {
    const registry: RedisRegistry
    const lease: Lease
    const ttl: int
    const poll: int

    constructor (registry: RedisRegistry, lease: Lease, ttl: int, poll: int)
      ensures this.registry == registry && this.lease == lease && this.ttl == ttl && this.poll == poll
    {
      this.registry, this.lease, this.ttl, this.poll := registry, lease, ttl, poll;
    }

    static method Start(registry: RedisRegistry, lease: Lease, ttl: int, poll: int) returns (r: Result<Publisher, Error>)
      ensures r.Ok? <==> lease.gatewayID != "" && lease.webSocketURL != "" && 0 < poll < ttl
      ensures r.Err? ==> r.error == InvalidConfig
      ensures r.Ok? ==>
                r.value.registry == registry && r.value.lease == lease && r.value.ttl == ttl && r.value.poll == poll
    {
      if lease.gatewayID == "" || lease.webSocketURL == "" || ttl <= 0 || poll <= 0 || poll >= ttl {
        return Err(InvalidConfig);
      }
      var publisher := new Publisher(registry, lease, ttl, poll);
      return Ok(publisher);
    }

    /** Does the registry take this publisher's lease on `p`? */
    predicate Registrable(p: int) {
      p >= 0 && ttl > 0 && registry.ValidLease(lease)
    }

    /** From `now` on there is no lease of this publisher on the given partitions, except where the call
        has failed or the registry refuses it. */
    ghost predicate Gone(entries: map<int, Entry>, partitions: set<int>, now: int, releaseDown: int -> bool) {
      forall p, t :: p in partitions && p >= 0 && !Blank(lease.token) && !releaseDown(p) && now <= t ==>
        p !in Unexpired(entries, t) || Unexpired(entries, t)[p].token != lease.token
    }

    /** Outside `renewed` no lease has come, other gateways' leases are all there, and so are this one's
        outside `released`. */
    ghost predicate OthersKept(before: map<int, Entry>, after: map<int, Entry>,
                               renewed: set<int>, released: set<int>, now: int)
    {
      forall p, t :: p !in renewed && now <= t ==>
        var was, shown := Unexpired(before, t), Unexpired(after, t);
        && (p in shown ==> p in was && shown[p] == was[p])
        && (p in was && !(p in released && was[p].token == lease.token) ==> p in shown)
    }

    /** The entry of `p` after this publisher tried to register it. */
    function Renewed(entries: map<int, Entry>, now: int, registerDown: int -> bool, p: int): Option<Entry> {
      if Registrable(p) && !registerDown(p) then Some(Entry(lease, now + ttl)) else EntryOf(entries, p)
    }

    /** The entry of `p` after this publisher tried to release it. */
    function Withdrawn(entries: map<int, Entry>, now: int, releaseDown: int -> bool, p: int): Option<Entry> {
      var released := p >= 0 && TrimSpace(lease.token) != "" && !releaseDown(p);
      if released && CarriesToken(entries, p, lease.token, now) then None else EntryOf(entries, p)
    }

    /** What the entries say about the directory. */
    lemma EntriesShow(before: map<int, Entry>, after: map<int, Entry>, renewed: set<int>, released: set<int>,
                      now: int, releaseDown: int -> bool)
      requires renewed !! released
      requires forall p :: p !in renewed ==>
                 EntryOf(after, p) ==
                 if p in released then Withdrawn(before, now, releaseDown, p) else EntryOf(before, p)
      ensures Gone(after, released, now, releaseDown) && OthersKept(before, after, renewed, released, now)
    {
      TrimSpaceIsTrimmed(lease.token);
      forall p, t | p !in renewed && now <= t
        ensures var was, shown := Unexpired(before, t), Unexpired(after, t);
                && (p in released && p >= 0 && !Blank(lease.token) && !releaseDown(p) ==>
                      p !in shown || shown[p].token != lease.token)
                && (p in shown ==> p in was && shown[p] == was[p])
                && (p in was && !(p in released && was[p].token == lease.token) ==> p in shown)
      {
        var was, shown := EntryOf(before, p), EntryOf(after, p);
      }
    }

    /** Registers every assignment, releases what is no longer assigned, and carries on past failing
        calls. */
    method Reconcile(published: set<int>, assignments: seq<int>, now: int,
                     registerDown: int -> bool, releaseDown: int -> bool)
      returns (next: set<int>)
      modifies registry
      ensures next == Ownership.SetOf(assignments)
      ensures forall p :: EntryOf(registry.entries, p) ==
                          if p in next then Renewed(old(registry.entries), now, registerDown, p)
                          else if p in published then Withdrawn(old(registry.entries), now, releaseDown, p)
                          else EntryOf(old(registry.entries), p)
      ensures forall p :: p in assignments && Registrable(p) && !registerDown(p) ==> HeldUntil(p, now, now + ttl)
      ensures Gone(registry.entries, published - next, now, releaseDown)
      ensures OthersKept(old(registry.entries), registry.entries, next, published - next, now)
    {
      next := RegisterAll(assignments, now, registerDown);
      ReleaseExcept(published, next, now, releaseDown);
      EntriesShow(old(registry.entries), registry.entries, next, published - next, now, releaseDown);
    }

    method RegisterAll(assignments: seq<int>, now: int, registerDown: int -> bool) returns (next: set<int>)
      modifies registry
      ensures next == Ownership.SetOf(assignments)
      ensures forall p :: EntryOf(registry.entries, p) ==
                          if p in next then Renewed(old(registry.entries), now, registerDown, p)
                          else EntryOf(old(registry.entries), p)
    {
      next := {};
      for i := 0 to |assignments|
        invariant forall p :: p in next <==> p in assignments[..i]
        invariant forall p :: EntryOf(registry.entries, p) ==
                              if p in next then Renewed(old(registry.entries), now, registerDown, p)
                              else EntryOf(old(registry.entries), p)
      {
        var partition := assignments[i];
        assert assignments[..i + 1] == assignments[..i] + [partition];
        next := next + {partition};
        ghost var before := registry.entries;
        var _ := registry.Register(partition, lease, ttl, now, registerDown(partition));
        assert forall p :: p != partition ==> EntryOf(registry.entries, p) == EntryOf(before, p);
        assert EntryOf(registry.entries, partition) == Renewed(before, now, registerDown, partition);
      }
      assert assignments[..|assignments|] == assignments;
      assert forall p :: p in next <==> p in assignments;
    }

    method ReleaseExcept(published: set<int>, next: set<int>, now: int, releaseDown: int -> bool)
      modifies registry
      ensures forall p :: EntryOf(registry.entries, p) ==
                          if p in published - next then Withdrawn(old(registry.entries), now, releaseDown, p)
                          else EntryOf(old(registry.entries), p)
    {
      var remaining := published;
      while remaining != {}
        invariant remaining <= published
        invariant forall p :: EntryOf(registry.entries, p) ==
                              if p in published - remaining - next then
                                Withdrawn(old(registry.entries), now, releaseDown, p)
                              else EntryOf(old(registry.entries), p)
        decreases remaining
      {
        var partition := AnyElement(remaining);
        remaining := remaining - {partition};
        if partition !in next {
          var _ := registry.Release(partition, lease.token, now, releaseDown(partition));
        }
      }
    }

    method ReleaseAll(published: set<int>, now: int, releaseDown: int -> bool)
      modifies registry
      ensures forall p :: EntryOf(registry.entries, p) ==
                          if p in published then Withdrawn(old(registry.entries), now, releaseDown, p)
                          else EntryOf(old(registry.entries), p)
      ensures Gone(registry.entries, published, now, releaseDown)
      ensures OthersKept(old(registry.entries), registry.entries, {}, published, now)
    {
      ReleaseExcept(published, {}, now, releaseDown);
      EntriesShow(old(registry.entries), registry.entries, {}, published, now, releaseDown);
    }

    /** One iteration of the loop at time `now`; a refresh lets the leases whose registration works run
        for another `ttl`. */
    method Tick(refreshes: seq<int>, lastRevision: int, published: set<int>, now: int,
                revision: nat, assignments: seq<int>, registerDown: int -> bool, releaseDown: int -> bool)
      returns (refreshed: bool, tracked: set<int>)
      requires ttl > 0
      modifies registry
      ensures refreshed <==> revision != lastRevision || refreshes == [] || now - Last(refreshes) >= ttl / 3
      ensures tracked == if refreshed then Ownership.SetOf(assignments) else published
      ensures !refreshed ==> unchanged(registry)
      ensures refreshed ==> forall p :: p in assignments && Registrable(p) && !registerDown(p) ==>
                HeldUntil(p, now, now + ttl)
      ensures refreshed ==> Gone(registry.entries, published - tracked, now, releaseDown)
      ensures refreshed ==> OthersKept(old(registry.entries), registry.entries, tracked, published - tracked, now)
      ensures refreshed ==> forall p :: EntryOf(registry.entries, p) ==
                                        if p in tracked then Renewed(old(registry.entries), now, registerDown, p)
                                        else if p in published then Withdrawn(old(registry.entries), now, releaseDown, p)
                                        else EntryOf(old(registry.entries), p)
    {
      refreshed := revision != lastRevision || RefreshDue(ttl, refreshes, now);
      tracked := published;
      if refreshed {
        tracked := Reconcile(published, assignments, now, registerDown, releaseDown);
      }
    }

    /** The loop of `run` with ideal ticks and registry calls that take no time and do not fail. At the
        k-th tick it finds `revisions[k]` and `assignments[k]`. The lease on a partition `p` that is
        gained at tick `m`, by a change of revision or at the start, and assigned from then on is held
        from the last tick beyond the next one. */
    method Run(ticks: seq<int>, revisions: seq<nat>, assignments: seq<seq<int>>, ghost p: int, ghost m: nat)
      returns (refreshes: seq<int>, published: set<int>)
      requires |ticks| == |revisions| == |assignments| && IdealTicks(poll, ticks) && 0 < poll < ttl
      modifies registry
      ensures refreshes == Refreshes(ttl, ticks, revisions) && published == Tracked(ttl, ticks, revisions, assignments)
      ensures m < |ticks| && Registrable(p) && AssignedFrom(revisions, assignments, p, m) ==>
                HeldUntil(p, Last(ticks), Last(ticks) + poll + 1)
    {
      refreshes, published := [], {};
      var lastRevision: int := -1;
      for k := 0 to |ticks|
        invariant lastRevision == if k == 0 then -1 else revisions[k - 1]
        invariant refreshes == Refreshes(ttl, ticks[..k], revisions[..k])
        invariant published == Tracked(ttl, ticks[..k], revisions[..k], assignments[..k])
        invariant k > m && Registrable(p) && AssignedFrom(revisions, assignments, p, m) ==>
                    refreshes != [] && HeldUntil(p, ticks[k - 1], Last(refreshes) + ttl)
      {
        assert Init(ticks[..k + 1]) == ticks[..k] && Init(revisions[..k + 1]) == revisions[..k];
        assert Init(assignments[..k + 1]) == assignments[..k];
        var refreshed;
        refreshed, published :=
          Tick(refreshes, lastRevision, published, ticks[k], revisions[k], assignments[k], NeverDown, NeverDown);
        assert k > 0 ==> ticks[k - 1] < ticks[k];
        if refreshed {
          lastRevision := revisions[k];
          refreshes := refreshes + [ticks[k]];
        }
      }
      assert ticks[..|ticks|] == ticks && revisions[..|revisions|] == revisions;
      assert assignments[..|assignments|] == assignments;
      if ticks != [] {
        RefreshGapBelowLeaseTime(poll, ttl, ticks, revisions);
      }
    }

    /** The registry shows this publisher's lease on `p` from one time to another. */
    ghost predicate HeldUntil(p: int, from: int, until: int)
      reads registry
    {
      forall t :: from <= t < until ==> p in registry.At(t) && registry.At(t)[p] == lease
    }
  }

  /** `p` is gained at tick `m` and assigned at every tick since. */
  ghost predicate AssignedFrom(revisions: seq<nat>, assignments: seq<seq<int>>, p: int, m: nat)
    requires |revisions| == |assignments|
  {
    && (0 < m < |revisions| ==> revisions[m] != revisions[m - 1])
    && forall k :: m <= k < |assignments| ==> p in assignments[k]
  }

  // ---------------------------------------------------------------------------------------------
  // When the leases are refreshed
  // ---------------------------------------------------------------------------------------------

  /** A third of the lease time has passed since the last refresh, or there has been none. */
  predicate RefreshDue(ttl: int, refreshes: seq<int>, now: int) {
    refreshes == [] || now - Last(refreshes) >= ttl / 3
  }

  /** The times of the refreshes of a run that meets the given revisions at its ticks. */
  function Refreshes(ttl: int, ticks: seq<int>, revisions: seq<nat>): seq<int>
    requires |ticks| == |revisions|
  {
    if ticks == [] then []
    else
      var before := Refreshes(ttl, Init(ticks), Init(revisions));
      if Changed(revisions) || RefreshDue(ttl, before, Last(ticks)) then before + [Last(ticks)] else before
  }

  /** The partitions tracked after the run: those of the last refresh. */
  function Tracked(ttl: int, ticks: seq<int>, revisions: seq<nat>, assignments: seq<seq<int>>): set<int>
    requires |ticks| == |revisions| == |assignments|
  {
    if ticks == [] then {}
    else if Changed(revisions) || RefreshDue(ttl, Refreshes(ttl, Init(ticks), Init(revisions)), Last(ticks)) then
      Ownership.SetOf(Last(assignments))
    else Tracked(ttl, Init(ticks), Init(revisions), Init(assignments))
  }

  predicate Changed(revisions: seq<nat>) {
    |revisions| > 1 ==> revisions[|revisions| - 1] != revisions[|revisions| - 2]
  }

  /** The ticker fires every `poll`, without delay. */
  ghost predicate IdealTicks(poll: int, ticks: seq<int>) {
    forall k {:trigger ticks[k]} :: 0 < k < |ticks| ==> ticks[k] == ticks[k - 1] + poll
  }

  /** Each refresh comes before the leases of the one before it expire, and so does `end`. */
  ghost predicate InTime(ttl: int, refreshes: seq<int>, end: int) {
    && (forall i :: 0 <= i < |refreshes| - 1 ==> refreshes[i] < refreshes[i + 1] < refreshes[i] + ttl)
    && (refreshes != [] ==> Last(refreshes) < end < Last(refreshes) + ttl)
  }

  lemma StaysInTime(poll: int, ttl: int, refreshes: seq<int>, refreshed: bool, now: int)
    requires 0 < poll < ttl && InTime(ttl, refreshes, now)
    requires refreshes != [] ==> Last(refreshes) + poll <= now
    requires !refreshed ==> refreshes != [] && now - Last(refreshes) < ttl / 3
    ensures InTime(ttl, if refreshed then refreshes + [now] else refreshes, now + poll)
  {
  }

  /** The source's rule: a tick is a refresh exactly when it is the first one, or the revision has changed
      since the last tick, or at least a third of the lease time has passed since every refresh before. */
  ghost predicate RefreshesAt(ttl: int, ticks: seq<int>, revisions: seq<nat>, refreshes: seq<int>, k: nat)
    requires |ticks| == |revisions| && k < |ticks|
  {
    || k == 0
    || revisions[k] != revisions[k - 1]
    || forall r :: r in refreshes && r < ticks[k] ==> ticks[k] - r >= ttl / 3
  }

  lemma {:induction false} TicksAscend(poll: int, ticks: seq<int>, j: nat, k: nat)
    requires 0 < poll && IdealTicks(poll, ticks) && j < k < |ticks|
    ensures ticks[j] < ticks[k]
    decreases k
  {
    if j < k - 1 {
      TicksAscend(poll, ticks, j, k - 1);
    }
  }

  lemma {:induction false} RefreshesAreTicks(poll: int, ttl: int, ticks: seq<int>, revisions: seq<nat>)
    requires 0 < poll && ticks != [] && |ticks| == |revisions| && IdealTicks(poll, ticks)
    ensures var refreshes := Refreshes(ttl, ticks, revisions);
            && refreshes != [] && Last(refreshes) <= Last(ticks)
            && (forall r :: r in refreshes ==> r <= Last(refreshes))
  {
    var before := Refreshes(ttl, Init(ticks), Init(revisions));
    if |ticks| == 1 {
      assert before == [];
    } else {
      RefreshesAreTicks(poll, ttl, Init(ticks), Init(revisions));
      assert Last(Init(ticks)) + poll == Last(ticks);
    }
  }

  /** The refreshes of a longer run are those of the run before it and perhaps the new tick. */
  lemma EarlierRefreshes(poll: int, ttl: int, ticks: seq<int>, revisions: seq<nat>)
    requires 0 < poll && |ticks| > 1 && |ticks| == |revisions| && IdealTicks(poll, ticks)
    ensures var before, now := Refreshes(ttl, Init(ticks), Init(revisions)), Last(ticks);
            && before != [] && Last(before) < now && (forall r :: r in before ==> r <= Last(before))
            && (forall r :: r in Refreshes(ttl, ticks, revisions) && r < now <==> r in before)
            && (now in Refreshes(ttl, ticks, revisions) <==> Changed(revisions) || RefreshDue(ttl, before, now))
  {
    RefreshesAreTicks(poll, ttl, Init(ticks), Init(revisions));
    assert Last(Init(ticks)) + poll == Last(ticks);
  }

  lemma LastRefreshDecides(ttl: int, refreshes: seq<int>, now: int)
    requires refreshes != [] && forall r :: r in refreshes ==> r <= Last(refreshes)
    ensures RefreshDue(ttl, refreshes, now) <==> forall r :: r in refreshes ==> now - r >= ttl / 3
  {
    var last := Last(refreshes);
    assert last in refreshes;
  }

  lemma LastTickRefreshesExactlyWhenDue(poll: int, ttl: int, ticks: seq<int>, revisions: seq<nat>)
    requires 0 < poll && ticks != [] && |ticks| == |revisions| && IdealTicks(poll, ticks)
    ensures Last(ticks) in Refreshes(ttl, ticks, revisions) <==>
            RefreshesAt(ttl, ticks, revisions, Refreshes(ttl, ticks, revisions), |ticks| - 1)
  {
    if |ticks| > 1 {
      EarlierRefreshes(poll, ttl, ticks, revisions);
      LastRefreshDecides(ttl, Refreshes(ttl, Init(ticks), Init(revisions)), Last(ticks));
    }
  }

  lemma {:induction false} RefreshesExactlyWhenDue(poll: int, ttl: int, ticks: seq<int>, revisions: seq<nat>, k: nat)
    requires 0 < poll && |ticks| == |revisions| && IdealTicks(poll, ticks) && k < |ticks|
    ensures ticks[k] in Refreshes(ttl, ticks, revisions) <==>
            RefreshesAt(ttl, ticks, revisions, Refreshes(ttl, ticks, revisions), k)
  {
    if k == |ticks| - 1 {
      LastTickRefreshesExactlyWhenDue(poll, ttl, ticks, revisions);
    } else {
      RefreshesExactlyWhenDue(poll, ttl, Init(ticks), Init(revisions), k);
      EarlierRefreshes(poll, ttl, ticks, revisions);
      TicksAscend(poll, ticks, k, |ticks| - 1);
    }
  }

  /** What is tracked after a run are the assignments found at its last refresh. */
  lemma {:induction false} TrackedSinceLastRefresh(ttl: int, ticks: seq<int>, revisions: seq<nat>,
                                                   assignments: seq<seq<int>>)
    returns (k: nat)
    requires |ticks| == |revisions| == |assignments| && ticks != []
    ensures k < |ticks| && Refreshes(ttl, ticks, revisions) != [] && ticks[k] == Last(Refreshes(ttl, ticks, revisions))
    ensures forall p :: p in Tracked(ttl, ticks, revisions, assignments) <==> p in assignments[k]
  {
    if Changed(revisions) || RefreshDue(ttl, Refreshes(ttl, Init(ticks), Init(revisions)), Last(ticks)) {
      k := |ticks| - 1;
    } else {
      k := TrackedSinceLastRefresh(ttl, Init(ticks), Init(revisions), Init(assignments));
    }
  }

  /** That the poll interval is positive and below the lease time is enough: with ideal ticks every
      refresh, and the next tick after the run, comes strictly before the leases expire, whenever
      the revision changes in between. */
  lemma {:induction false} RefreshGapBelowLeaseTime(poll: int, ttl: int, ticks: seq<int>, revisions: seq<nat>)
    requires 0 < poll < ttl && ticks != [] && |ticks| == |revisions| && IdealTicks(poll, ticks)
    ensures var refreshes := Refreshes(ttl, ticks, revisions);
            && refreshes != [] && refreshes[0] == ticks[0] && Last(refreshes) <= Last(ticks)
            && InTime(ttl, refreshes, Last(ticks) + poll)
  {
    var before, now := Refreshes(ttl, Init(ticks), Init(revisions)), Last(ticks);
    if |ticks| == 1 {
      assert before == [];
    } else {
      RefreshGapBelowLeaseTime(poll, ttl, Init(ticks), Init(revisions));
      assert Last(Init(ticks)) + poll == now;
    }
    StaysInTime(poll, ttl, before, Changed(revisions) || RefreshDue(ttl, before, now), now);
  }

  ghost predicate Late(ttl: int, refreshes: seq<int>) {
    forall i :: 0 <= i < |refreshes| - 1 ==> refreshes[i + 1] >= refreshes[i] + ttl
  }

  lemma StaysLate(ttl: int, refreshes: seq<int>, now: int)
    requires Late(ttl, refreshes) && (refreshes != [] ==> Last(refreshes) + ttl <= now)
    ensures Late(ttl, refreshes + [now])
  {
  }

  /** The condition is exact: at a poll interval of the lease time or more, no refresh comes in time. */
  lemma {:induction false} LongPollLetsLeasesLapse(poll: int, ttl: int, ticks: seq<int>, revisions: seq<nat>)
    requires 0 < ttl <= poll && |ticks| == |revisions| && IdealTicks(poll, ticks)
    ensures Late(ttl, Refreshes(ttl, ticks, revisions))
  {
    if ticks != [] {
      var before := Refreshes(ttl, Init(ticks), Init(revisions));
      LongPollLetsLeasesLapse(poll, ttl, Init(ticks), Init(revisions));
      if |ticks| > 1 {
        RefreshesAreTicks(poll, ttl, Init(ticks), Init(revisions));
        assert Last(Init(ticks)) + poll == Last(ticks);
      } else {
        assert before == [];
      }
      StaysLate(ttl, before, Last(ticks));
    }
  }
}
