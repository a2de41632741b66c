/** Route publishers sharing one lease directory, after internal/routing/publisher.go.

    Every gateway runs its own publisher loop: read the ownership revision, take a snapshot of the
    assigned partitions, register them one by one, release the ones it no longer has. Every read and
    every directory call is one step, and the steps of all gateways interleave freely.
  */
module Routing {
  import opened Leases
  import Ownership
  import opened Sequences
  import opened Wrappers

  /** `r` is the revision read at the start of the iteration, `next` the snapshot. */
  datatype Phase =
    | Idle
    | RevisionRead(r: nat)
    | Registering(r: nat, next: set<int>, todo: set<int>)
    | Releasing(r: nat, next: set<int>, todo: set<int>)
    | Stopping(todo: set<int>)
    | Stopped

  /** `lastRevision` is -1 before the first iteration. */
  datatype Gateway = Gateway(own: Ownership.Guarded, lease: Lease, lastRevision: int, published: set<int>, phase: Phase)

  datatype State = State(gateways: seq<Gateway>, directory: Directory)

  /** A call takes effect and is confirmed; takes effect but reports an error; or has no effect. */
  datatype Answer = Confirmed | AnswerLost | Failed

  datatype Action =
    | Own(i: nat, step: Ownership.Action)
    | ReadRevision(i: nat)
    | Skip(i: nat)
    | Snapshot(i: nat)
    | Register(i: nat, p: int, answer: Answer)
    | BeginRelease(i: nat)
    | Release(i: nat, p: int, answer: Answer)
    | Finish(i: nat)
    | Stop(i: nat)
    | ReleaseAtStop(i: nat, p: int, answer: Answer)
    | EndStop(i: nat)
    | Expire(p: int)

  /** The step of one gateway within its own loop. */
  predicate LoopEnabled(g: Gateway, a: Action) {
    match a
    case Own(_, step) => Ownership.Enabled(g.own, step)
    case ReadRevision(_) => g.phase.Idle?
    case Skip(_) => g.phase.RevisionRead? && g.phase.r == g.lastRevision
    case Snapshot(_) => g.phase.RevisionRead? && g.own.lock.Free?
    case Register(_, p, _) => g.phase.Registering? && p in g.phase.todo
    case BeginRelease(_) => g.phase.Registering? && g.phase.todo == {}
    case Release(_, p, _) => g.phase.Releasing? && p in g.phase.todo
    case Finish(_) => g.phase.Releasing? && g.phase.todo == {}
    case Stop(_) => g.phase.Idle?
    case ReleaseAtStop(_, p, _) => g.phase.Stopping? && p in g.phase.todo
    case EndStop(_) => g.phase.Stopping? && g.phase.todo == {}
    case Expire(_) => false
  }

  function LoopStep(g: Gateway, a: Action): Gateway
    requires LoopEnabled(g, a)
  {
    match a
    case Own(_, step) => g.(own := Ownership.Apply(g.own, step))
    case ReadRevision(_) => g.(phase := RevisionRead(g.own.revision))
    case Skip(_) => g.(phase := Idle)
    case Snapshot(_) => g.(phase := Registering(g.phase.r, g.own.current.owned, g.own.current.owned))
    case Register(_, p, _) => g.(phase := Registering(g.phase.r, g.phase.next, g.phase.todo - {p}))
    case BeginRelease(_) => g.(phase := Releasing(g.phase.r, g.phase.next, g.published - g.phase.next))
    case Release(_, p, _) => g.(phase := Releasing(g.phase.r, g.phase.next, g.phase.todo - {p}))
    case Finish(_) => g.(published := g.phase.next, lastRevision := g.phase.r, phase := Idle)
    case Stop(_) => g.(phase := Stopping(g.published))
    case ReleaseAtStop(_, p, _) => g.(phase := Stopping(g.phase.todo - {p}))
    case EndStop(_) => g.(phase := Stopped)
  }

  /** What a step does to the directory on behalf of the holder of `lease`. */
  function DirectoryStep(d: Directory, lease: Lease, a: Action): Directory {
    match a
    case Register(_, p, answer) => if answer.Failed? then d else Registered(d, p, lease)
    case Release(_, p, answer) => if answer.Failed? then d else Released(d, p, lease.token)
    case ReleaseAtStop(_, p, answer) => if answer.Failed? then d else Released(d, p, lease.token)
    case Expire(p) => d - {p}
    case _ => d
  }

  predicate Enabled(s: State, a: Action) {
    a.Expire? || (a.i < |s.gateways| && LoopEnabled(s.gateways[a.i], a))
  }

  function Apply(s: State, a: Action): State
    requires Enabled(s, a)
  {
    if a.Expire? then s.(directory := s.directory - {a.p})
    else
      var g := s.gateways[a.i];
      State(s.gateways[a.i := LoopStep(g, a)], DirectoryStep(s.directory, g.lease, a))
  }

  /** The state after a run that starts in `s`, if every step of it was possible. */
  function After(s: State, run: seq<Action>): Option<State> {
    if run == [] then Some(s)
    else
      var t := After(s, Init(run));
      if t.Some? && Enabled(t.value, Last(run)) then Some(Apply(t.value, Last(run))) else None
  }

  /** Gateways that have just started, with an empty directory. */
  ghost predicate Initial(s: State) {
    && s.directory == map[]
    && forall i :: 0 <= i < |s.gateways| ==>
         var g := s.gateways[i];
         g.own == Ownership.UNOWNED && g.lastRevision == -1 && g.published == {} && g.phase == Idle
  }

  // ---------------------------------------------------------------------------------------------
  // No change of ownership is missed
  // ---------------------------------------------------------------------------------------------

  /** The assignments the current revision stands for. */
  function Assigned(g: Gateway): set<int>
    requires g.own.revision < |g.own.history|
  {
    g.own.history[g.own.revision].owned
  }

  ghost predicate Tracking(g: Gateway) {
    && Ownership.Consistent(g.own)
    && g.lastRevision <= g.own.revision
    && (g.lastRevision == g.own.revision ==> g.published == Assigned(g))
    && (g.phase.RevisionRead? || g.phase.Registering? || g.phase.Releasing? ==> g.phase.r <= g.own.revision)
    && (g.phase.Registering? || g.phase.Releasing? ==> (g.phase.r == g.own.revision ==> g.phase.next == Assigned(g)))
  }

  lemma StaysTracking(g: Gateway, a: Action)
    requires Tracking(g) && LoopEnabled(g, a)
    ensures Tracking(LoopStep(g, a))
  {
    if a.Own? {
      Ownership.StaysConsistent(g.own, a.step);
    }
  }

  /** Although revision and snapshot are read in separate steps, whenever a publisher's last revision
      is the current one, the partitions it tracks are the current assignments, whatever registry
      calls have failed. */
  lemma {:induction false} TrackedSetIsCurrent(s: State, run: seq<Action>, i: nat)
    requires Initial(s) && i < |s.gateways| && After(s, run).Some?
    ensures |After(s, run).value.gateways| == |s.gateways| && Tracking(After(s, run).value.gateways[i])
    ensures var g := After(s, run).value.gateways[i]; g.lastRevision == g.own.revision ==> g.published == Assigned(g)
  {
    if run != [] {
      TrackedSetIsCurrent(s, Init(run), i);
      var t, a := After(s, Init(run)).value, Last(run);
      if !a.Expire? && a.i == i {
        StaysTracking(t.gateways[i], a);
      }
    }
  }

  // ---------------------------------------------------------------------------------------------
  // Convergence
  // ---------------------------------------------------------------------------------------------

  /** No ownership changes in the run. */
  ghost predicate Stable(run: seq<Action>) {
    forall k :: 0 <= k < |run| ==> !run[k].Own?
  }

  ghost predicate SameOwners(s: State, t: State) {
    && |t.gateways| == |s.gateways|
    && forall i :: 0 <= i < |s.gateways| ==>
         t.gateways[i].own == s.gateways[i].own && t.gateways[i].lease == s.gateways[i].lease
  }

  function Owned(g: Gateway): set<int> {
    g.own.current.owned
  }

  /** A publisher whose running iteration, if any, works with the current assignments. */
  ghost predicate Fresh(g: Gateway) {
    match g.phase
    case Registering(_, next, todo) => next == Owned(g) && todo <= next
    case Releasing(_, next, todo) => next == Owned(g) && todo !! next
    case Idle => g.published == Owned(g)
    case RevisionRead(_) => g.published == Owned(g)
    case _ => true
  }

  ghost predicate Ended(g: Gateway) {
    g.phase.Stopping? || g.phase.Stopped?
  }

  /** A publisher that tracks exactly the current assignments, or has been stopped. */
  ghost predicate Clean(g: Gateway) {
    Ended(g) || (Fresh(g) && g.published == Owned(g))
  }

  lemma StaysFresh(g: Gateway, a: Action)
    requires LoopEnabled(g, a) && !a.Own?
    ensures a.Snapshot? || Fresh(g) ==> Fresh(LoopStep(g, a))
    ensures Fresh(g) && a.Finish? ==> Clean(LoopStep(g, a))
    ensures Clean(g) ==> Clean(LoopStep(g, a))
  {
  }

  ghost predicate TookSnapshot(run: seq<Action>, i: nat) {
    exists k :: 0 <= k < |run| && run[k] == Snapshot(i)
  }

  /** The run contains the whole of an iteration of publisher `i`, from snapshot to end. */
  ghost predicate Reconciled(run: seq<Action>, i: nat) {
    exists j, k :: 0 <= j < k < |run| && run[j] == Snapshot(i) && run[k] == Finish(i)
  }

  lemma {:induction false} OwnersKept(s: State, run: seq<Action>)
    requires After(s, run).Some? && Stable(run)
    ensures SameOwners(s, After(s, run).value)
  {
    if run != [] {
      OwnersKept(s, Init(run));
    }
  }

  lemma {:induction false} FreshAfterSnapshot(s: State, run: seq<Action>, i: nat)
    requires After(s, run).Some? && Stable(run) && i < |s.gateways|
    requires Fresh(s.gateways[i]) || TookSnapshot(run, i)
    ensures SameOwners(s, After(s, run).value) && Fresh(After(s, run).value.gateways[i])
  {
    OwnersKept(s, run);
    if run != [] {
      var t, a := After(s, Init(run)).value, Last(run);
      OwnersKept(s, Init(run));
      if Fresh(s.gateways[i]) || TookSnapshot(Init(run), i) {
        FreshAfterSnapshot(s, Init(run), i);
      } else {
        assert a == Snapshot(i);
      }
      if !a.Expire? && a.i == i {
        StaysFresh(t.gateways[i], a);
      }
    }
  }

  lemma {:induction false} CleanAfterReconcile(s: State, run: seq<Action>, i: nat)
    requires After(s, run).Some? && Stable(run) && i < |s.gateways|
    requires Clean(s.gateways[i]) || Reconciled(run, i)
    ensures SameOwners(s, After(s, run).value) && Clean(After(s, run).value.gateways[i])
  {
    OwnersKept(s, run);
    if run != [] {
      var t, a := After(s, Init(run)).value, Last(run);
      OwnersKept(s, Init(run));
      if Clean(s.gateways[i]) || Reconciled(Init(run), i) {
        CleanAfterReconcile(s, Init(run), i);
      } else {
        var j, k :| 0 <= j < k < |run| && run[j] == Snapshot(i) && run[k] == Finish(i);
        assert k == |run| - 1 && Init(run)[j] == Snapshot(i);
        FreshAfterSnapshot(s, Init(run), i);
      }
      if !a.Expire? && a.i == i {
        StaysFresh(t.gateways[i], a);
      }
    }
  }

  /** Assignments are disjoint and tokens differ. */
  ghost predicate Disjoint(s: State) {
    forall i, j :: 0 <= i < |s.gateways| && 0 <= j < |s.gateways| && i != j ==>
      Owned(s.gateways[i]) !! Owned(s.gateways[j]) && s.gateways[i].lease.token != s.gateways[j].lease.token
  }

  ghost predicate Settled(s: State) {
    Disjoint(s) && forall i :: 0 <= i < |s.gateways| ==> Clean(s.gateways[i])
  }

  ghost predicate Holds(s: State, i: nat, p: int)
    requires i < |s.gateways|
  {
    p in s.directory && s.directory[p] == s.gateways[i].lease
  }

  /** Nothing but expiry or the owner's own stop takes a lease from an owner once all is settled. */
  lemma LeaseStays(s: State, a: Action, i: nat, p: int)
    requires Settled(s) && Enabled(s, a) && !a.Own? && i < |s.gateways| && p in Owned(s.gateways[i])
    requires !Ended(s.gateways[i]) && a != Expire(p) && Holds(s, i, p)
    ensures Holds(Apply(s, a), i, p)
  {
  }

  lemma StepKeepsOwners(s: State, a: Action)
    requires Enabled(s, a) && !a.Own?
    ensures SameOwners(s, Apply(s, a)) && (Disjoint(s) ==> Disjoint(Apply(s, a)))
  {
  }

  lemma StaysSettled(s: State, a: Action)
    requires Settled(s) && Enabled(s, a) && !a.Own?
    ensures Settled(Apply(s, a)) && SameOwners(s, Apply(s, a))
  {
    StepKeepsOwners(s, a);
    if !a.Expire? {
      StaysFresh(s.gateways[a.i], a);
    }
  }

  /** The run lets gateway `i` keep its leases: it is not stopped, and no lease of its partitions
      expires. */
  ghost predicate Undisturbed(run: seq<Action>, i: nat, partitions: set<int>) {
    Stable(run) && forall k :: 0 <= k < |run| ==> run[k] != Stop(i) && !(run[k].Expire? && run[k].p in partitions)
  }

  lemma {:induction false} LeasesStay(s: State, run: seq<Action>, i: nat)
    requires After(s, run).Some? && Settled(s) && i < |s.gateways| && !Ended(s.gateways[i])
    requires Undisturbed(run, i, Owned(s.gateways[i]))
    requires forall p :: p in Owned(s.gateways[i]) ==> Holds(s, i, p)
    ensures var t := After(s, run).value;
            && Settled(t) && SameOwners(s, t) && !Ended(t.gateways[i])
            && forall p :: p in Owned(s.gateways[i]) ==> Holds(t, i, p)
  {
    if run != [] {
      LeasesStay(s, Init(run), i);
      var t, a := After(s, Init(run)).value, Last(run);
      StaysSettled(t, a);
      forall p | p in Owned(s.gateways[i])
        ensures Holds(Apply(t, a), i, p)
      {
        LeaseStays(t, a, i, p);
      }
    }
  }

  /** During a failure-free iteration everything already dealt with is held. */
  ghost predicate Covered(s: State, i: nat)
    requires i < |s.gateways|
  {
    var g := s.gateways[i];
    && !Ended(g)
    && forall p :: p in Owned(g) && (g.phase.Registering? ==> p !in g.phase.todo) ==> Holds(s, i, p)
  }

  lemma StaysCovered(s: State, a: Action, i: nat)
    requires Settled(s) && Enabled(s, a) && !a.Own? && i < |s.gateways|
    requires Covered(s, i) && a != Stop(i) && !(a.Expire? && a.p in Owned(s.gateways[i]))
    requires a.Register? && a.i == i ==> !a.answer.Failed?
    ensures Covered(Apply(s, a), i)
  {
    var g, g' := s.gateways[i], Apply(s, a).gateways[i];
    forall p | p in Owned(g') && (g'.phase.Registering? ==> p !in g'.phase.todo)
      ensures Holds(Apply(s, a), i, p)
    {
      if !(a.Register? && a.i == i && a.p == p) {
        LeaseStays(s, a, i, p);
      }
    }
  }

  /** In the run no registration by gateway `i` fails. */
  ghost predicate FailureFree(run: seq<Action>, i: nat) {
    forall k :: 0 <= k < |run| && run[k].Register? && run[k].i == i ==> !run[k].answer.Failed?
  }

  /** From the owner's snapshot on, a failure-free run keeps it covered. */
  lemma {:induction false} CoveredAfterSnapshot(s: State, run: seq<Action>, i: nat)
    requires After(s, run).Some? && Settled(s) && i < |s.gateways| && run != [] && run[0] == Snapshot(i)
    requires Undisturbed(run, i, Owned(s.gateways[i])) && FailureFree(run, i)
    ensures var t := After(s, run).value; Settled(t) && SameOwners(s, t) && Covered(t, i)
  {
    var t, a := After(s, Init(run)).value, Last(run);
    if |run| == 1 {
      assert Init(run) == [];
    } else {
      CoveredAfterSnapshot(s, Init(run), i);
      StaysCovered(t, a, i);
    }
    if |run| > 1 {
      StaysSettled(t, a);
    } else {
      StaysSettled(s, a);
    }
  }

  lemma {:induction false} RunsCompose(s: State, first: seq<Action>, second: seq<Action>)
    ensures After(s, first + second) == if After(s, first).Some? then After(After(s, first).value, second) else None
    decreases |second|
  {
    if second == [] {
      assert first + second == first;
    } else {
      assert Init(first + second) == first + Init(second);
      RunsCompose(s, first, Init(second));
    }
  }

  lemma {:induction false} StableRunsSettle(s: State, run: seq<Action>)
    requires After(s, run).Some? && Disjoint(s) && Stable(run)
    requires forall i :: 0 <= i < |s.gateways| ==> Clean(s.gateways[i]) || Reconciled(run, i)
    ensures Settled(After(s, run).value) && SameOwners(s, After(s, run).value)
  {
    OwnersKept(s, run);
    forall i | 0 <= i < |s.gateways|
      ensures Clean(After(s, run).value.gateways[i])
    {
      CleanAfterReconcile(s, run, i);
    }
  }

  /** Convergence. From any state, once ownership is disjoint and no longer changes: let `settling` be
      a run in which every publisher that is not clean already completes an iteration begun in it;
      let `again` be the owner's next iteration, from its snapshot to its end, without a failing
      registration; and let anything follow. Then, unless the owner stops or a lease expires, the
      directory maps every partition of the owner to the owner. */
  lemma DirectoryConverges(s: State, settling: seq<Action>, again: seq<Action>, later: seq<Action>, owner: nat)
    requires After(s, settling + again + later).Some? && Disjoint(s) && owner < |s.gateways|
    requires Stable(settling) && forall i :: 0 <= i < |s.gateways| ==> Clean(s.gateways[i]) || Reconciled(settling, i)
    requires |again| > 1 && again[0] == Snapshot(owner) && Last(again) == Finish(owner) && FailureFree(again, owner)
    requires Undisturbed(again, owner, Owned(s.gateways[owner])) && Undisturbed(later, owner, Owned(s.gateways[owner]))
    ensures var t := After(s, settling + again + later).value;
            |t.gateways| == |s.gateways| &&
            forall p :: p in Owned(s.gateways[owner]) ==>
              p in t.directory && t.directory[p] == s.gateways[owner].lease
  {
    RunsCompose(s, settling + again, later);
    RunsCompose(s, settling, again);
    var s1 := After(s, settling).value;
    StableRunsSettle(s, settling);
    CoveredAfterSnapshot(s1, again, owner);
    var s2 := After(s1, again).value;
    assert s2.gateways[owner].phase.Idle?;
    LeasesStay(s2, later, owner);
  }

  // ---------------------------------------------------------------------------------------------
  // When one iteration is enough
  // ---------------------------------------------------------------------------------------------

  /** Gateway `j` still has `p` to register. */
  predicate Threatens(g: Gateway, p: int) {
    g.phase.Registering? && p in g.phase.todo
  }

  ghost predicate Unthreatened(s: State, owner: nat, p: int) {
    forall j :: 0 <= j < |s.gateways| && j != owner ==> !Threatens(s.gateways[j], p)
  }

  /** The owner's snapshot is current, and it holds the lease on `p` or still has it to register. */
  ghost predicate Secured(s: State, owner: nat, p: int)
    requires owner < |s.gateways|
  {
    var g := s.gateways[owner];
    !Ended(g) && Fresh(g) && (Holds(s, owner, p) || Threatens(g, p))
  }

  /** The steps that may happen while the lease on `p` is to be kept. */
  predicate Spares(a: Action, owner: nat, p: int) {
    !a.Own? && a != Stop(owner) && a != Expire(p)
  }

  lemma StaysUnthreatened(s: State, a: Action, owner: nat, p: int)
    requires Disjoint(s) && Unthreatened(s, owner, p) && Enabled(s, a) && !a.Own?
    requires owner < |s.gateways| && p in Owned(s.gateways[owner])
    ensures Unthreatened(Apply(s, a), owner, p)
  {
    if a.Snapshot? && a.i != owner {
      assert Owned(s.gateways[a.i]) !! Owned(s.gateways[owner]);
    }
  }

  lemma OwnStepStaysSecured(s: State, a: Action, owner: nat, p: int)
    requires owner < |s.gateways| && p in Owned(s.gateways[owner]) && Secured(s, owner, p)
    requires Enabled(s, a) && Spares(a, owner, p) && !a.Expire? && a.i == owner
    requires a.Register? ==> !a.answer.Failed? || Holds(s, owner, p)
    ensures Secured(Apply(s, a), owner, p)
  {
    StaysFresh(s.gateways[owner], a);
  }

  lemma OtherStepStaysSecured(s: State, a: Action, owner: nat, p: int)
    requires Disjoint(s) && owner < |s.gateways| && p in Owned(s.gateways[owner]) && Secured(s, owner, p)
    requires Enabled(s, a) && Spares(a, owner, p) && Unthreatened(s, owner, p)
    requires a.Expire? || a.i != owner
    ensures Secured(Apply(s, a), owner, p)
  {
  }

  ghost predicate Sparing(run: seq<Action>, owner: nat, p: int) {
    forall k :: 0 <= k < |run| ==> Spares(run[k], owner, p)
  }

  lemma {:induction false} SecuredAfterSnapshot(s: State, run: seq<Action>, owner: nat, p: int)
    requires After(s, run).Some? && Disjoint(s) && owner < |s.gateways| && p in Owned(s.gateways[owner])
    requires Unthreatened(s, owner, p) && Sparing(run, owner, p) && run != []
    requires run[0] == Snapshot(owner) && FailureFree(run, owner)
    ensures var t := After(s, run).value;
            SameOwners(s, t) && Disjoint(t) && Unthreatened(t, owner, p) && Secured(t, owner, p)
  {
    var t, a := After(s, Init(run)).value, Last(run);
    if |run| == 1 {
      assert Init(run) == [];
    } else {
      SecuredAfterSnapshot(s, Init(run), owner, p);
      if !a.Expire? && a.i == owner {
        OwnStepStaysSecured(t, a, owner, p);
      } else {
        OtherStepStaysSecured(t, a, owner, p);
      }
    }
    StepKeepsOwners(t, a);
    StaysUnthreatened(t, a, owner, p);
  }

  lemma {:induction false} HeldStaysHeld(s: State, run: seq<Action>, owner: nat, p: int)
    requires After(s, run).Some? && Disjoint(s) && owner < |s.gateways| && p in Owned(s.gateways[owner])
    requires Unthreatened(s, owner, p) && Sparing(run, owner, p)
    requires Holds(s, owner, p) && !Ended(s.gateways[owner]) && Fresh(s.gateways[owner])
    ensures var t := After(s, run).value;
            && SameOwners(s, t) && Disjoint(t) && Unthreatened(t, owner, p)
            && Holds(t, owner, p) && !Ended(t.gateways[owner]) && Fresh(t.gateways[owner])
  {
    if run != [] {
      HeldStaysHeld(s, Init(run), owner, p);
      var t, a := After(s, Init(run)).value, Last(run);
      StepKeepsOwners(t, a);
      StaysUnthreatened(t, a, owner, p);
      HeldStaysHeldInStep(t, a, owner, p);
    }
  }

  lemma HeldStaysHeldInStep(s: State, a: Action, owner: nat, p: int)
    requires Disjoint(s) && owner < |s.gateways| && p in Owned(s.gateways[owner]) && Unthreatened(s, owner, p)
    requires Enabled(s, a) && Spares(a, owner, p)
    requires Holds(s, owner, p) && !Ended(s.gateways[owner]) && Fresh(s.gateways[owner])
    ensures var t := Apply(s, a); Holds(t, owner, p) && !Ended(t.gateways[owner]) && Fresh(t.gateways[owner])
  {
    if !a.Expire? && a.i == owner {
      StaysFresh(s.gateways[owner], a);
    }
  }

  /** The run begins with the owner's snapshot and contains its whole iteration, in which no
      registration fails; anything but the owner's stop and the expiry of `p` may follow. */
  ghost predicate Iterates(run: seq<Action>, owner: nat, p: int) {
    && Sparing(run, owner, p) && run != [] && run[0] == Snapshot(owner)
    && exists k :: 0 < k < |run| && run[k] == Finish(owner) && FailureFree(run[..k + 1], owner)
  }

  ghost predicate HeldAfter(s: State, run: seq<Action>, owner: nat, p: int)
    requires After(s, run).Some?
  {
    var t := After(s, run).value;
    owner < |t.gateways| && Holds(t, owner, p)
  }

  lemma FinishedIsIdle(s: State, run: seq<Action>, i: nat)
    requires After(s, run).Some? && run != [] && Last(run) == Finish(i)
    ensures i < |After(s, run).value.gateways| && After(s, run).value.gateways[i].phase.Idle?
  {
  }

  lemma HeldAfterIteration(s: State, again: seq<Action>, later: seq<Action>, owner: nat, p: int)
    requires Disjoint(s) && owner < |s.gateways| && p in Owned(s.gateways[owner]) && Unthreatened(s, owner, p)
    requires After(s, again + later).Some? && Sparing(again, owner, p) && Sparing(later, owner, p)
    requires again != [] && again[0] == Snapshot(owner) && Last(again) == Finish(owner) && FailureFree(again, owner)
    ensures HeldAfter(s, again + later, owner, p)
  {
    RunsCompose(s, again, later);
    SecuredAfterSnapshot(s, again, owner, p);
    FinishedIsIdle(s, again, owner);
    HeldStaysHeld(After(s, again).value, later, owner, p);
  }

  lemma SparingParts(again: seq<Action>, later: seq<Action>, owner: nat, p: int)
    requires Sparing(again + later, owner, p)
    ensures Sparing(again, owner, p) && Sparing(later, owner, p)
  {
    assert forall k :: 0 <= k < |again| ==> again[k] == (again + later)[k];
    assert forall k :: 0 <= k < |later| ==> later[k] == (again + later)[|again| + k];
  }

  lemma OneIterationIsEnough(s: State, run: seq<Action>, owner: nat, p: int)
    requires Disjoint(s) && owner < |s.gateways| && p in Owned(s.gateways[owner]) && Unthreatened(s, owner, p)
    requires After(s, run).Some? && Iterates(run, owner, p)
    ensures HeldAfter(s, run, owner, p)
  {
    var k :| 0 < k < |run| && run[k] == Finish(owner) && FailureFree(run[..k + 1], owner);
    var again, later := run[..k + 1], run[k + 1..];
    assert run == again + later && again[0] == Snapshot(owner) && Last(again) == Finish(owner);
    SparingParts(again, later, owner, p);
    HeldAfterIteration(s, again, later, owner, p);
  }

  /** Steps of gateway `i` alone, all of them successful. */
  ghost predicate OwnRun(run: seq<Action>, i: nat) {
    forall k :: 0 <= k < |run| ==>
      && !run[k].Own? && !run[k].Stop? && !run[k].Expire? && run[k].i == i
      && (run[k].Register? ==> run[k].answer.Confirmed?)
  }

  /** From `s` gateway `i` alone gets to `t`. */
  ghost predicate Reaches(s: State, run: seq<Action>, i: nat, t: State) {
    && OwnRun(run, i) && After(s, run) == Some(t) && |t.gateways| == |s.gateways|
    && forall j :: 0 <= j < |s.gateways| && j != i ==> t.gateways[j] == s.gateways[j]
  }

  lemma ReachesInOneStep(s: State, i: nat, a: Action)
    requires OwnRun([a], i) && Enabled(s, a)
    ensures Reaches(s, [a], i, Apply(s, a))
  {
    assert Init([a]) == [];
  }

  lemma ReachesInTwoRuns(s: State, run: seq<Action>, i: nat, t: State, more: seq<Action>, u: State)
    requires Reaches(s, run, i, t) && Reaches(t, more, i, u)
    ensures Reaches(s, run + more, i, u)
  {
    RunsCompose(s, run, more);
  }

  /** A publisher can always work off what it has to register or to release. */
  lemma WorksOff(s: State, i: nat) returns (run: seq<Action>, t: State)
    requires i < |s.gateways| && (s.gateways[i].phase.Registering? || s.gateways[i].phase.Releasing?)
    ensures Reaches(s, run, i, t)
    ensures if s.gateways[i].phase.Registering? then Enabled(t, BeginRelease(i)) else Enabled(t, Finish(i))
    decreases s.gateways[i].phase.todo
  {
    var phase := s.gateways[i].phase;
    if phase.todo == {} {
      run, t := [], s;
    } else {
      var q := SomeElement(phase.todo);
      var a := if phase.Registering? then Register(i, q, Confirmed) else Release(i, q, Confirmed);
      ReachesInOneStep(s, i, a);
      run, t := WorksOff(Apply(s, a), i);
      ReachesInTwoRuns(s, [a], i, Apply(s, a), run, t);
      run := [a] + run;
    }
  }

  /** A publisher that may take its snapshot can complete the iteration. */
  lemma CompletesIteration(s: State, i: nat) returns (run: seq<Action>, t: State)
    requires Enabled(s, Snapshot(i))
    ensures |run| > 1 && run[0] == Snapshot(i) && Last(run) == Finish(i) && Reaches(s, run, i, t)
  {
    ReachesInOneStep(s, i, Snapshot(i));
    run, t := ReachesWorkedOff(s, [Snapshot(i)], i, Apply(s, Snapshot(i)));
    run, t := ReachesOneMore(s, run, i, t, BeginRelease(i));
    run, t := ReachesWorkedOff(s, run, i, t);
    run, t := ReachesOneMore(s, run, i, t, Finish(i));
  }

  lemma ReachesWorkedOff(s: State, run: seq<Action>, i: nat, t: State) returns (longer: seq<Action>, u: State)
    requires Reaches(s, run, i, t)
    requires i < |t.gateways| && (t.gateways[i].phase.Registering? || t.gateways[i].phase.Releasing?)
    ensures run <= longer && Reaches(s, longer, i, u)
    ensures if t.gateways[i].phase.Registering? then Enabled(u, BeginRelease(i)) else Enabled(u, Finish(i))
  {
    var more;
    more, u := WorksOff(t, i);
    longer := run + more;
    ReachesInTwoRuns(s, run, i, t, more, u);
  }

  lemma ReachesOneMore(s: State, run: seq<Action>, i: nat, t: State, a: Action) returns (longer: seq<Action>, u: State)
    requires Reaches(s, run, i, t) && OwnRun([a], i) && Enabled(t, a)
    ensures longer == run + [a] && u == Apply(t, a) && Reaches(s, longer, i, u)
  {
    longer, u := run + [a], Apply(t, a);
    ReachesInOneStep(t, i, a);
    ReachesInTwoRuns(s, run, i, t, [a], u);
  }

  /** A publisher with `p` still to register can overwrite the owner's lease after its iteration. */
  lemma ThreatComesTrue(s: State, owner: nat, p: int, j: nat) returns (run: seq<Action>)
    requires Disjoint(s) && owner < |s.gateways| && Enabled(s, Snapshot(owner))
    requires j < |s.gateways| && j != owner && Threatens(s.gateways[j], p)
    ensures After(s, run).Some? && Iterates(run, owner, p) && !HeldAfter(s, run, owner, p)
  {
    var again, t := CompletesIteration(s, owner);
    var a := Register(j, p, Confirmed);
    run := again + [a];
    assert Init(run) == again && Enabled(t, a);
    var k := |again| - 1;
    assert run[k] == Finish(owner) && run[..k + 1] == again;
    assert s.gateways[owner].lease == t.gateways[owner].lease by {
      OwnersKept(s, again);
    }
  }

  /** Once every publisher is settled nobody threatens an owner any more. */
  lemma SettledIsUnthreatened(s: State, owner: nat, p: int)
    requires Settled(s) && owner < |s.gateways| && p in Owned(s.gateways[owner])
    ensures Unthreatened(s, owner, p)
  {
    forall j | 0 <= j < |s.gateways| && j != owner
      ensures !Threatens(s.gateways[j], p)
    {
      assert Clean(s.gateways[j]) && Owned(s.gateways[j]) !! Owned(s.gateways[owner]);
    }
  }

  /** Exactly when one iteration of the owner is enough, other publishers doing whatever they like: no
      other publisher still has `p` to register, from an older snapshot, when the owner takes its own. */
  lemma OneIterationIsEnoughExactlyWhen(s: State, owner: nat, p: int)
    requires Disjoint(s) && owner < |s.gateways| && p in Owned(s.gateways[owner]) && Enabled(s, Snapshot(owner))
    ensures Unthreatened(s, owner, p) <==>
            forall run :: After(s, run).Some? && Iterates(run, owner, p) ==> HeldAfter(s, run, owner, p)
  {
    if Unthreatened(s, owner, p) {
      forall run | After(s, run).Some? && Iterates(run, owner, p)
        ensures HeldAfter(s, run, owner, p)
      {
        OneIterationIsEnough(s, run, owner, p);
      }
    } else {
      var j :| 0 <= j < |s.gateways| && j != owner && Threatens(s.gateways[j], p);
      var run := ThreatComesTrue(s, owner, p, j);
      assert After(s, run).Some? && Iterates(run, owner, p) && !HeldAfter(s, run, owner, p);
    }
  }

  // ---------------------------------------------------------------------------------------------
  // What is released is gone
  // ---------------------------------------------------------------------------------------------

  ghost predicate DistinctTokens(s: State) {
    forall i, j :: 0 <= i < |s.gateways| && 0 <= j < |s.gateways| && i != j ==>
      s.gateways[i].lease.token != s.gateways[j].lease.token
  }

  /** The directory has a lease of gateway `i` on `p`. */
  predicate Carries(s: State, i: nat, p: int)
    requires i < |s.gateways|
  {
    p in s.directory && s.directory[p].token == s.gateways[i].lease.token
  }

  /** Gateway `i` has been stopped, and its lease on `p` is gone or still to be released. */
  ghost predicate Departing(s: State, i: nat, p: int)
    requires i < |s.gateways|
  {
    var phase := s.gateways[i].phase;
    (phase.Stopping? && (p in phase.todo || !Carries(s, i, p))) || (phase.Stopped? && !Carries(s, i, p))
  }

  lemma StaysDeparting(s: State, a: Action, i: nat, p: int)
    requires DistinctTokens(s) && i < |s.gateways| && Departing(s, i, p) && Enabled(s, a)
    requires a != ReleaseAtStop(i, p, Failed)
    ensures var t := Apply(s, a); |t.gateways| == |s.gateways| && DistinctTokens(t) && Departing(t, i, p)
  {
  }

  /** A publisher whose stop is complete has left no lease on anything it tracked, whatever the others
      have done meanwhile, unless the release of the partition failed. */
  lemma {:induction false} StopWithdraws(s: State, run: seq<Action>, i: nat, p: int)
    requires DistinctTokens(s) && i < |s.gateways| && p in s.gateways[i].published
    requires After(s, run).Some? && run != [] && run[0] == Stop(i) && ReleaseAtStop(i, p, Failed) !in run
    ensures var t := After(s, run).value;
            && |t.gateways| == |s.gateways| && DistinctTokens(t) && Departing(t, i, p)
            && (t.gateways[i].phase.Stopped? ==> !Carries(t, i, p))
  {
    if |run| == 1 {
      assert Init(run) == [];
    } else {
      StopWithdraws(s, Init(run), i, p);
      assert Last(run) in run;
      StaysDeparting(After(s, Init(run)).value, Last(run), i, p);
    }
  }

  /** Gateway `i` is in an iteration whose snapshot lacks `p`, and its lease on `p` is gone or still to be
      released. */
  ghost predicate Abandons(s: State, i: nat, p: int)
    requires i < |s.gateways|
  {
    var g := s.gateways[i];
    match g.phase
    case Registering(_, next, todo) => p in g.published && p !in next && todo <= next
    case Releasing(_, next, todo) => p !in next && (p in todo || !Carries(s, i, p))
    case _ => false
  }

  lemma StaysAbandoned(s: State, a: Action, i: nat, p: int)
    requires DistinctTokens(s) && i < |s.gateways| && Abandons(s, i, p) && Enabled(s, a)
    requires a != Release(i, p, Failed)
    ensures var t := Apply(s, a);
            && |t.gateways| == |s.gateways| && DistinctTokens(t)
            && (if a == Finish(i) then !Carries(t, i, p) else Abandons(t, i, p))
  {
  }

  /** An iteration that finds a tracked partition no longer assigned ends without a lease on it, unless
      the release of the partition failed. */
  lemma {:induction false} IterationWithdraws(s: State, run: seq<Action>, i: nat, p: int)
    requires DistinctTokens(s) && i < |s.gateways| && p in s.gateways[i].published && p !in Owned(s.gateways[i])
    requires After(s, run).Some? && run != [] && run[0] == Snapshot(i) && Release(i, p, Failed) !in run
    requires Finish(i) !in Init(run)
    ensures var t := After(s, run).value;
            && |t.gateways| == |s.gateways| && DistinctTokens(t)
            && (if Last(run) == Finish(i) then !Carries(t, i, p) else Abandons(t, i, p))
  {
    if |run| == 1 {
      assert Init(run) == [];
    } else {
      var before := Init(run);
      assert forall a :: a in Init(before) ==> a in before;
      assert Last(before) in before && Last(run) in run;
      IterationWithdraws(s, before, i, p);
      StaysAbandoned(After(s, before).value, Last(run), i, p);
    }
  }

  // ---------------------------------------------------------------------------------------------
  // One iteration is not enough
  // ---------------------------------------------------------------------------------------------

  const ONE_PARTITION := Ownership.Snapshot([0], {0})

  const NO_PARTITION := Ownership.Snapshot([0], {})

  const LEASE_A := Lease("a", "ws://a", "token-a")

  const LEASE_B := Lease("b", "ws://b", "token-b")

  /** Gateway A has just been given the partition. */
  const OWNER_A := Gateway(Ownership.Guarded(ONE_PARTITION, 1, Ownership.Free, [Ownership.NOTHING, ONE_PARTITION]),
                           LEASE_A, -1, {}, Idle)

  /** Gateway B has lost it, but is in an iteration that began before. */
  const LOSER_B := Gateway(Ownership.Guarded(NO_PARTITION, 2, Ownership.Free,
                                             [Ownership.NOTHING, ONE_PARTITION, NO_PARTITION]),
                           LEASE_B, -1, {}, Registering(1, {0}, {0}))

  const REST_OF_STALE := [Register(1, 0, Confirmed), BeginRelease(1), Finish(1)]

  const FRESH := [ReadRevision(1), Snapshot(1), BeginRelease(1), Release(1, 0, Confirmed), Finish(1)]

  function NewGateway(lease: Lease): Gateway {
    Gateway(Ownership.UNOWNED, lease, -1, {}, Idle)
  }

  lemma StepOfA(s: State, run: seq<Action>, a: Gateway, b: Gateway, d: Directory, step: Action)
    returns (longer: seq<Action>)
    requires After(s, run) == Some(State([a, b], d)) && !step.Expire? && step.i == 0 && LoopEnabled(a, step)
    ensures longer == run + [step]
    ensures After(s, longer) == Some(State([LoopStep(a, step), b], DirectoryStep(d, a.lease, step)))
  {
    longer := run + [step];
    assert Init(longer) == run;
    assert [a, b][0 := LoopStep(a, step)] == [LoopStep(a, step), b];
  }

  lemma StepOfB(s: State, run: seq<Action>, a: Gateway, b: Gateway, d: Directory, step: Action)
    returns (longer: seq<Action>)
    requires After(s, run) == Some(State([a, b], d)) && !step.Expire? && step.i == 1 && LoopEnabled(b, step)
    ensures longer == run + [step]
    ensures After(s, longer) == Some(State([a, LoopStep(b, step)], DirectoryStep(d, b.lease, step)))
  {
    longer := run + [step];
    assert Init(longer) == run;
    assert [a, b][1 := LoopStep(b, step)] == [a, LoopStep(b, step)];
  }

  /** A's iteration: it registers the partition. */
  lemma IterationOfA(b: Gateway) returns (run: seq<Action>, a: Gateway)
    ensures After(State([OWNER_A, b], map[]), run) == Some(State([a, b], map[0 := LEASE_A]))
    ensures Calm(run) && Reconciled(run, 0)
    ensures a.own == OWNER_A.own && a.lease == LEASE_A
  {
    var s, d := State([OWNER_A, b], map[]), map[];
    run, a := [], OWNER_A;
    run := StepOfA(s, run, a, b, d, ReadRevision(0));
    a := LoopStep(a, ReadRevision(0));
    run := StepOfA(s, run, a, b, d, Snapshot(0));
    a := LoopStep(a, Snapshot(0));
    run := StepOfA(s, run, a, b, d, Register(0, 0, Confirmed));
    a := LoopStep(a, Register(0, 0, Confirmed));
    run := StepOfA(s, run, a, b, map[0 := LEASE_A], BeginRelease(0));
    a := LoopStep(a, BeginRelease(0));
    run := StepOfA(s, run, a, b, map[0 := LEASE_A], Finish(0));
    a := LoopStep(a, Finish(0));
    assert run[1] == Snapshot(0) && run[4] == Finish(0);
  }

  /** B finishes its stale iteration, overwriting A's lease. */
  lemma StaleIterationOfB(s: State, run: seq<Action>, a: Gateway) returns (longer: seq<Action>, b: Gateway)
    requires After(s, run) == Some(State([a, LOSER_B], map[0 := LEASE_A]))
    ensures longer == run + REST_OF_STALE
    ensures b == LOSER_B.(lastRevision := 1, published := {0}, phase := Idle)
    ensures After(s, longer) == Some(State([a, b], map[0 := LEASE_B]))
  {
    b := LOSER_B;
    longer := StepOfB(s, run, a, b, map[0 := LEASE_A], Register(1, 0, Confirmed));
    b := LoopStep(b, Register(1, 0, Confirmed));
    assert map[0 := LEASE_A][0 := LEASE_B] == map[0 := LEASE_B];
    longer := StepOfB(s, longer, a, b, map[0 := LEASE_B], BeginRelease(1));
    b := LoopStep(b, BeginRelease(1));
    longer := StepOfB(s, longer, a, b, map[0 := LEASE_B], Finish(1));
    b := LoopStep(b, Finish(1));
  }

  /** B's next iteration finds that it has nothing and withdraws the lease it has written. */
  lemma FreshIterationOfB(s: State, run: seq<Action>, a: Gateway, b: Gateway) returns (longer: seq<Action>, b': Gateway)
    requires b == LOSER_B.(lastRevision := 1, published := {0}, phase := Idle)
    requires After(s, run) == Some(State([a, b], map[0 := LEASE_B]))
    ensures longer == run + FRESH
    ensures After(s, longer) == Some(State([a, b'], map[]))
  {
    var d: Directory := map[0 := LEASE_B];
    b' := b;
    longer := StepOfB(s, run, a, b', d, ReadRevision(1));
    b' := LoopStep(b', ReadRevision(1));
    longer := StepOfB(s, longer, a, b', d, Snapshot(1));
    b' := LoopStep(b', Snapshot(1));
    longer := StepOfB(s, longer, a, b', d, BeginRelease(1));
    b' := LoopStep(b', BeginRelease(1));
    longer := StepOfB(s, longer, a, b', d, Release(1, 0, Confirmed));
    b' := LoopStep(b', Release(1, 0, Confirmed));
    assert d - {0} == map[];
    longer := StepOfB(s, longer, a, b', map[], Finish(1));
    b' := LoopStep(b', Finish(1));
  }

  /** A consumer-group generation moves the partition from B to A while B is between its snapshot and
      its first registration. */
  lemma Handover() returns (run: seq<Action>)
    ensures After(State([NewGateway(LEASE_A), NewGateway(LEASE_B)], map[]), run) ==
            Some(State([OWNER_A, LOSER_B], map[]))
  {
    var a, b := NewGateway(LEASE_A), NewGateway(LEASE_B);
    var s := State([a, b], map[]);
    var b1 := b.(own := OWNER_A.own, phase := Registering(1, {0}, {0}));
    Ownership.InstallOne(Ownership.NOTHING, 0);
    assert a.own.history + [ONE_PARTITION] == OWNER_A.own.history;
    assert b1.own.history + [NO_PARTITION] == LOSER_B.own.history;
    run := [];
    run := OwnershipMoves(s, run, a, b, 1, Ownership.Install([0], [0]), ONE_PARTITION);
    run := StepOfB(s, run, a, b.(own := OWNER_A.own), map[], ReadRevision(1));
    run := StepOfB(s, run, a, b.(own := OWNER_A.own, phase := RevisionRead(1)), map[], Snapshot(1));
    run := OwnershipMoves(s, run, a, b1, 1, Ownership.Clear, NO_PARTITION);
    run := OwnershipMoves(s, run, a, LOSER_B, 0, Ownership.Install([0], [0]), ONE_PARTITION);
  }

  function AfterUpdate(own: Ownership.Guarded, current: Ownership.Snapshot): Ownership.Guarded {
    Ownership.Guarded(current, own.revision + 1, Ownership.Free, own.history + [current])
  }

  /** Gateway `i` of the two installs or clears its assignments: write, raise, unlock. */
  lemma OwnershipMoves(s: State, run: seq<Action>, a: Gateway, b: Gateway, i: nat, update: Ownership.Update,
                       current: Ownership.Snapshot)
    returns (longer: seq<Action>)
    requires After(s, run) == Some(State([a, b], map[])) && i < 2
    requires var own := [a, b][i].own; own.lock.Free? && Ownership.Updated(own.current, update) == Ok(current)
    ensures After(s, longer) ==
            Some(if i == 0 then State([a.(own := AfterUpdate(a.own, current)), b], map[])
                 else State([a, b.(own := AfterUpdate(b.own, current))], map[]))
  {
    var write, raise, unlock := Own(i, Ownership.Write(update)), Own(i, Ownership.Raise), Own(i, Ownership.Unlock);
    if i == 0 {
      longer := StepOfA(s, run, a, b, map[], write);
      longer := StepOfA(s, longer, LoopStep(a, write), b, map[], raise);
      longer := StepOfA(s, longer, LoopStep(LoopStep(a, write), raise), b, map[], unlock);
    } else {
      longer := StepOfB(s, run, a, b, map[], write);
      longer := StepOfB(s, longer, a, LoopStep(b, write), map[], raise);
      longer := StepOfB(s, longer, a, LoopStep(LoopStep(b, write), raise), map[], unlock);
    }
  }

  /** Ownership is stable and no registration fails. */
  ghost predicate Calm(run: seq<Action>) {
    Stable(run) && FailureFree(run, 0) && FailureFree(run, 1)
  }

  lemma CalmLonger(run: seq<Action>, more: seq<Action>)
    requires Calm(run) && Calm(more)
    ensures Calm(run + more)
  {
  }

  lemma ReconciledLonger(run: seq<Action>, more: seq<Action>, i: nat)
    requires Reconciled(run, i)
    ensures Reconciled(run + more, i)
  {
    var j, k :| 0 <= j < k < |run| && run[j] == Snapshot(i) && run[k] == Finish(i);
    assert (run + more)[j] == Snapshot(i) && (run + more)[k] == Finish(i);
  }

  /** Both publishers complete a failure-free iteration begun in the run, and the lease is gone. */
  lemma LeaseWithdrawn() returns (settling: seq<Action>, a: Gateway, b: Gateway)
    ensures After(State([OWNER_A, LOSER_B], map[]), settling) == Some(State([a, b], map[]))
    ensures Calm(settling) && Reconciled(settling, 0) && Reconciled(settling, 1)
  {
    var s := State([OWNER_A, LOSER_B], map[]);
    var first, second;
    first, a := IterationOfA(LOSER_B);
    second, b := StaleIterationOfB(s, first, a);
    settling, b := FreshIterationOfB(s, second, a, b);
    TailStaysCalm(first);
    TailReconciles(first + REST_OF_STALE);
  }

  lemma TailStaysCalm(run: seq<Action>)
    requires Calm(run) && Reconciled(run, 0)
    ensures Calm(run + REST_OF_STALE) && Reconciled(run + REST_OF_STALE, 0)
  {
    CalmLonger(run, REST_OF_STALE);
    ReconciledLonger(run, REST_OF_STALE, 0);
  }

  lemma TailReconciles(run: seq<Action>)
    requires Calm(run) && Reconciled(run, 0)
    ensures Calm(run + FRESH) && Reconciled(run + FRESH, 0) && Reconciled(run + FRESH, 1)
  {
    var whole := run + FRESH;
    CalmLonger(run, FRESH);
    ReconciledLonger(run, FRESH, 0);
    assert whole[|run| + 1] == Snapshot(1) && whole[|run| + 4] == Finish(1);
  }

  /** That every publisher has completed a failure-free iteration begun after the last change of
      ownership is not enough: from a reachable state, after such a run, an owned partition can be
      missing from the directory. The owner's next iteration is needed to restore it. */
  lemma OneIterationIsNotEnough() returns (handover: seq<Action>, settling: seq<Action>)
    ensures var s0 := State([NewGateway(LEASE_A), NewGateway(LEASE_B)], map[]);
            && Initial(s0) && After(s0, handover).Some?
            && var s := After(s0, handover).value;
               && |s.gateways| == 2 && Disjoint(s) && Owned(s.gateways[0]) == {0} && After(s, settling).Some?
               && Calm(settling)
               && Reconciled(settling, 0) && Reconciled(settling, 1)
               && 0 !in After(s, settling).value.directory
  {
    handover := Handover();
    var a, b;
    settling, a, b := LeaseWithdrawn();
    assert LEASE_A.token != LEASE_B.token;
  }
}
