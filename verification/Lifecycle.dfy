/** The life of client connections across partition ownership changes and shutdown, as a machine
    whose steps any number of handshake handlers, the ownership monitor, the consumer group and
    `Shutdown` take in any order (internal/httpserver/websocket.go, internal/httpserver/server.go,
    internal/bus/kafka.go).

    A step is what one party does under one lock, or one lock-free read. A connection is named by
    the number of its handler.
  */
module Lifecycle {
  import opened Connections
  import opened GoStrings
  import Ownership
  import Room
  import opened Sequences
  import opened Wrappers

  /** How far a handler has come; `h` is the ownership revision it read first, `session` its seat in
      the room. */
  datatype Phase =
    | Arrived
    | RevisionRead(h: nat)
    | Admitted(h: nat)
    | Upgraded(h: nat)
    | RoomFound(h: nat)
    | Joined(h: nat, session: nat)
    | Refused(session: nat)
    | Registered(h: nat, session: nat)
    | RevisionOk(h: nat, session: nat)
    | Stale(session: nat)
    | Withdrawn(session: nat)
    | Live(h: nat, session: nat)
    | Departing(h: nat, session: nat)
    | Done

  datatype Handler = Handler(room: string, user: string, phase: Phase)

  /** `last` is the monitor's lastRevision; `pending` says that it has read a new revision but not
      yet taken the table. */
  datatype Monitor = NotStarted | Running(last: nat, pending: bool) | Stopped

  /** The last four fields are history: who was ever registered, the batches handed to
      closeWebSockets, and whose own handler has called remove. */
  datatype State = State(
    own: Ownership.Guarded,
    table: Table<nat>,
    monitor: Monitor,
    draining: bool,
    handlers: seq<Handler>,
    rooms: map<string, Room.State>,
    registered: set<nat>,
    ownershipBatches: seq<set<nat>>,
    restartBatches: seq<set<nat>>,
    removed: set<nat>)

  const INITIAL := State(Ownership.UNOWNED, Table({}, false), NotStarted, false, [], map[], {}, [], [], {})

  datatype Action =
    | Own(step: Ownership.Action)
    | Arrive(userID: string, roomID: string)
    | ReadRevision(i: nat)
    | CheckOwner(i: nat)
    | Upgrade(i: nat, ok: bool)
    | FindRoom(i: nat)
    | JoinRoom(i: nat)
    | Register(i: nat)
    | RecheckRevision(i: nat)
    | RecheckOwner(i: nat)
    | Unregister(i: nat)
    | LeaveRoom(i: nat)
    | MonitorStart
    | MonitorTick
    | MonitorScan
    | MonitorStop
    | Drain
    | CloseForRestart
    | Broadcast(roomID: string, content: string)
    | Receive(i: nat)

  predicate At(s: State, i: nat) {
    i < |s.handlers|
  }

  function PhaseOf(s: State, i: nat): Phase
    requires At(s, i)
  {
    s.handlers[i].phase
  }

  function SetPhase(s: State, i: nat, phase: Phase): State
    requires At(s, i)
  {
    s.(handlers := s.handlers[i := s.handlers[i].(phase := phase)])
  }

  predicate Owns(balance: Ownership.Balancer, s: State, i: nat)
    requires At(s, i)
  {
    Ownership.OwnsRoom(balance, s.own.current, s.handlers[i].room)
  }

  /** Is the handler between its join and its leave? */
  predicate Seated(phase: Phase) {
    phase.Joined? || phase.Refused? || phase.Registered? || phase.RevisionOk? || phase.Stale? || phase.Withdrawn?
    || phase.Live?
  }

  /** Does the handler's writer run? It may drain the closed queue after the leave. */
  predicate Writes(phase: Phase) {
    phase.Live? || phase.Departing?
  }

  predicate Enabled(s: State, a: Action) {
    match a
    case Own(step) => Ownership.Enabled(s.own, step)
    case Arrive(userID, roomID) => !s.draining && TrimSpace(userID) != "" && TrimSpace(roomID) != ""
    case ReadRevision(i) => At(s, i) && PhaseOf(s, i).Arrived?
    case CheckOwner(i) => At(s, i) && PhaseOf(s, i).RevisionRead? && s.own.lock.Free?
    case Upgrade(i, ok) => At(s, i) && PhaseOf(s, i).Admitted?
    case FindRoom(i) => At(s, i) && PhaseOf(s, i).Upgraded?
    case JoinRoom(i) => At(s, i) && PhaseOf(s, i).RoomFound? && s.handlers[i].room in s.rooms
    case Register(i) => At(s, i) && PhaseOf(s, i).Joined?
    case RecheckRevision(i) => At(s, i) && PhaseOf(s, i).Registered?
    case RecheckOwner(i) => At(s, i) && PhaseOf(s, i).RevisionOk? && s.own.lock.Free?
    case Unregister(i) => At(s, i) && (PhaseOf(s, i).Stale? || PhaseOf(s, i).Departing?)
    case LeaveRoom(i) =>
      && At(s, i) && (PhaseOf(s, i).Refused? || PhaseOf(s, i).Withdrawn? || PhaseOf(s, i).Live?)
      && s.handlers[i].room in s.rooms
    case MonitorStart => s.monitor.NotStarted?
    case MonitorTick => s.monitor.Running? && !s.monitor.pending
    case MonitorScan => s.monitor.Running? && s.monitor.pending
    case MonitorStop => s.monitor.Running? && !s.monitor.pending && s.table.closing
    case Drain => true
    case CloseForRestart => s.draining
    case Broadcast(roomID, content) => TrimSpace(roomID) in s.rooms
    case Receive(i) => At(s, i) && Writes(PhaseOf(s, i)) && s.handlers[i].room in s.rooms
  }

  function InRoom(s: State, room: string, op: Room.Op): State
    requires room in s.rooms
  {
    s.(rooms := s.rooms[room := Room.Apply(s.rooms[room], op)])
  }

  function Apply(balance: Ownership.Balancer, s: State, a: Action): State
    requires Enabled(s, a)
  {
    match a
    case Own(step) => s.(own := Ownership.Apply(s.own, step))
    case Arrive(userID, roomID) =>
      s.(handlers := s.handlers + [Handler(TrimSpace(roomID), TrimSpace(userID), Arrived)])
    case ReadRevision(i) => SetPhase(s, i, RevisionRead(s.own.revision))
    case CheckOwner(i) => SetPhase(s, i, if Owns(balance, s, i) then Admitted(PhaseOf(s, i).h) else Done)
    case Upgrade(i, ok) => SetPhase(s, i, if ok then Upgraded(PhaseOf(s, i).h) else Done)
    case FindRoom(i) =>
      var room := s.handlers[i].room;
      SetPhase(s, i, RoomFound(PhaseOf(s, i).h))
        .(rooms := if room in s.rooms then s.rooms else s.rooms[room := Room.EMPTY])
    case JoinRoom(i) =>
      var hd := s.handlers[i];
      if Room.TryJoin(s.rooms[hd.room], hd.user).Ok? then
        SetPhase(InRoom(s, hd.room, Room.Join(hd.user)), i, Joined(hd.phase.h, |s.rooms[hd.room].sessions|))
      else
        SetPhase(s, i, Done)
    case Register(i) =>
      var (table, added) := Add(s.table, i);
      if added then
        SetPhase(s, i, Registered(PhaseOf(s, i).h, PhaseOf(s, i).session))
          .(table := table, registered := s.registered + {i})
      else
        SetPhase(s, i, Refused(PhaseOf(s, i).session))
    case RecheckRevision(i) =>
      var phase := PhaseOf(s, i);
      SetPhase(s, i, if s.own.revision == phase.h then RevisionOk(phase.h, phase.session) else Stale(phase.session))
    case RecheckOwner(i) =>
      var phase := PhaseOf(s, i);
      SetPhase(s, i, if Owns(balance, s, i) then Live(phase.h, phase.session) else Stale(phase.session))
    case Unregister(i) =>
      SetPhase(s, i, if PhaseOf(s, i).Stale? then Withdrawn(PhaseOf(s, i).session) else Done)
        .(table := Remove(s.table, i), removed := s.removed + {i})
    case LeaveRoom(i) =>
      var hd := s.handlers[i];
      SetPhase(InRoom(s, hd.room, Room.Leave(hd.user)), i,
               if hd.phase.Live? then Departing(hd.phase.h, hd.phase.session) else Done)
    case MonitorStart => s.(monitor := Running(s.own.revision, false))
    case MonitorTick =>
      if s.own.revision == s.monitor.last then s else s.(monitor := Running(s.own.revision, true))
    case MonitorScan =>
      var (table, batch) := TakeAll(s.table);
      s.(table := table, monitor := s.monitor.(pending := false), ownershipBatches := s.ownershipBatches + [batch])
    case MonitorStop => s.(monitor := Stopped)
    case Drain => s.(draining := true)
    case CloseForRestart =>
      var (table, batch) := BeginClosing(s.table);
      s.(table := table, restartBatches := s.restartBatches + [batch])
    case Broadcast(roomID, content) => InRoom(s, TrimSpace(roomID), Room.Publish(content))
    case Receive(i) => InRoom(s, s.handlers[i].room, Room.Receive(PhaseOf(s, i).session))
  }

  /** Steps that call a room, and the other steps of one handler. */
  predicate CallsRoom(a: Action) {
    a.JoinRoom? || a.LeaveRoom? || a.Broadcast? || a.Receive?
  }

  predicate MovesHandler(a: Action) {
    || a.ReadRevision? || a.CheckOwner? || a.Upgrade? || a.FindRoom? || a.Register? || a.RecheckRevision?
    || a.RecheckOwner? || a.Unregister?
  }

  // ---------------------------------------------------------------------------------------------
  // Runs
  // ---------------------------------------------------------------------------------------------

  /** The state after a run, if every step of it was possible. */
  function After(balance: Ownership.Balancer, run: seq<Action>): Option<State> {
    if run == [] then Some(INITIAL)
    else
      var s := After(balance, Init(run));
      if s.Some? && Enabled(s.value, Last(run)) then Some(Apply(balance, s.value, Last(run))) else None
  }

  // ---------------------------------------------------------------------------------------------
  // Generation fencing
  // ---------------------------------------------------------------------------------------------

  /** Has the handler passed the revision part of its recheck? */
  predicate Passed(phase: Phase) {
    phase.RevisionOk? || phase.Live? || phase.Departing?
  }

  predicate OwnedAt(balance: Ownership.Balancer, own: Ownership.Guarded, revision: nat, room: string) {
    revision < |own.history| && Ownership.OwnsRoom(balance, own.history[revision], room)
  }

  /** Phases that carry a revision. */
  predicate Carries(phase: Phase) {
    || phase.RevisionRead? || phase.Admitted? || phase.Upgraded? || phase.RoomFound? || phase.Joined?
    || phase.Registered? || Passed(phase)
  }

  /** What a handler's phase proves about the ownership history: its owner check was good for its
      revision if that is still the current one, and for certain once the recheck has confirmed it. */
  ghost predicate Evidence(balance: Ownership.Balancer, own: Ownership.Guarded, hd: Handler) {
    Carries(hd.phase) ==>
      && hd.phase.h <= own.revision
      && (!hd.phase.RevisionRead? && (hd.phase.h == own.revision || Passed(hd.phase)) ==>
            OwnedAt(balance, own, hd.phase.h, hd.room))
  }

  ghost predicate Evident(balance: Ownership.Balancer, s: State) {
    && Ownership.Consistent(s.own)
    && (s.monitor.Running? ==> s.monitor.last <= s.own.revision)
    && forall i :: 0 <= i < |s.handlers| ==> Evidence(balance, s.own, s.handlers[i])
  }

  /** The monitor will still see every registered connection older than the revision it knows. */
  ghost predicate Watched(s: State) {
    s.monitor.Running? && !s.monitor.pending ==>
      forall i :: i in s.table.items && At(s, i) && Passed(PhaseOf(s, i)) ==> s.monitor.last <= PhaseOf(s, i).h
  }

  lemma EvidenceKept(balance: Ownership.Balancer, own: Ownership.Guarded, step: Ownership.Action, hd: Handler)
    requires Ownership.Consistent(own) && Ownership.Enabled(own, step) && Evidence(balance, own, hd)
    ensures Evidence(balance, Ownership.Apply(own, step), hd)
  {
    Ownership.StaysConsistent(own, step);
  }

  lemma OwnershipStepStaysEvident(balance: Ownership.Balancer, s: State, step: Ownership.Action)
    requires Evident(balance, s) && Ownership.Enabled(s.own, step)
    ensures Evident(balance, s.(own := Ownership.Apply(s.own, step)))
  {
    Ownership.StaysConsistent(s.own, step);
    forall i | 0 <= i < |s.handlers|
      ensures Evidence(balance, Ownership.Apply(s.own, step), s.handlers[i])
    {
      EvidenceKept(balance, s.own, step, s.handlers[i]);
    }
  }

  /** All steps that move a handler on. */
  predicate Moves(a: Action) {
    MovesHandler(a) || a.JoinRoom? || a.LeaveRoom?
  }

  /** The steps of one handler leave ownership, the monitor and the other handlers alone. */
  lemma MovesOneHandler(balance: Ownership.Balancer, s: State, a: Action)
    requires Enabled(s, a) && Moves(a)
    ensures var s' := Apply(balance, s, a);
            && s'.own == s.own && s'.monitor == s.monitor
            && s'.handlers == s.handlers[a.i := s.handlers[a.i].(phase := s'.handlers[a.i].phase)]
  {
  }

  /** A handler's own steps register and remove no other connection. */
  lemma MovesOnlyOwnConnection(balance: Ownership.Balancer, s: State, a: Action)
    requires Enabled(s, a) && Moves(a)
    ensures var s' := Apply(balance, s, a);
            && (forall k :: k != a.i ==> (k in s'.registered <==> k in s.registered))
            && (forall k :: k != a.i ==> (k in s'.table.items <==> k in s.table.items))
  {
  }

  /** The steps before the connection is registered. */
  predicate BeforeTable(a: Action) {
    a.ReadRevision? || a.CheckOwner? || a.Upgrade? || a.FindRoom? || a.JoinRoom?
  }

  lemma EarlyStepHasEvidence(balance: Ownership.Balancer, s: State, a: Action)
    requires Ownership.Consistent(s.own) && Enabled(s, a) && BeforeTable(a)
    requires Evidence(balance, s.own, s.handlers[a.i])
    ensures Evidence(balance, s.own, Apply(balance, s, a).handlers[a.i])
  {
  }

  lemma LateStepHasEvidence(balance: Ownership.Balancer, s: State, a: Action)
    requires Ownership.Consistent(s.own) && Enabled(s, a) && Moves(a) && !BeforeTable(a)
    requires Evidence(balance, s.own, s.handlers[a.i])
    ensures Evidence(balance, s.own, Apply(balance, s, a).handlers[a.i])
  {
  }

  lemma HandlerStepStaysEvident(balance: Ownership.Balancer, s: State, a: Action)
    requires Evident(balance, s) && Enabled(s, a) && Moves(a)
    ensures Evident(balance, Apply(balance, s, a))
  {
    MovesOneHandler(balance, s, a);
    if BeforeTable(a) {
      EarlyStepHasEvidence(balance, s, a);
    } else {
      LateStepHasEvidence(balance, s, a);
    }
  }

  lemma OtherStepStaysEvident(balance: Ownership.Balancer, s: State, a: Action)
    requires Evident(balance, s) && Enabled(s, a) && !a.Own? && !Moves(a)
    ensures Evident(balance, Apply(balance, s, a))
  {
  }

  lemma StaysEvident(balance: Ownership.Balancer, s: State, a: Action)
    requires Evident(balance, s) && Enabled(s, a)
    ensures Evident(balance, Apply(balance, s, a))
  {
    if a.Own? {
      OwnershipStepStaysEvident(balance, s, a.step);
    } else if Moves(a) {
      HandlerStepStaysEvident(balance, s, a);
    } else {
      OtherStepStaysEvident(balance, s, a);
    }
  }

  lemma MovedHandlerIsWatched(balance: Ownership.Balancer, s: State, a: Action, last: nat)
    requires Enabled(s, a) && Moves(a) && last <= s.own.revision
    requires Passed(PhaseOf(s, a.i)) && a.i in s.table.items ==> last <= PhaseOf(s, a.i).h
    ensures var s' := Apply(balance, s, a);
            At(s', a.i) && (Passed(PhaseOf(s', a.i)) && a.i in s'.table.items ==> last <= PhaseOf(s', a.i).h)
  {
  }

  lemma HandlerStepStaysWatched(balance: Ownership.Balancer, s: State, a: Action)
    requires Evident(balance, s) && Watched(s) && Enabled(s, a) && Moves(a)
    ensures Watched(Apply(balance, s, a))
  {
    MovesOneHandler(balance, s, a);
    MovesOnlyOwnConnection(balance, s, a);
    if s.monitor.Running? && !s.monitor.pending {
      MovedHandlerIsWatched(balance, s, a, s.monitor.last);
    }
  }

  lemma OtherStepStaysWatched(balance: Ownership.Balancer, s: State, a: Action)
    requires Watched(s) && Enabled(s, a) && !Moves(a) && !a.MonitorStart?
    ensures Watched(Apply(balance, s, a))
  {
  }

  lemma StaysWatched(balance: Ownership.Balancer, s: State, a: Action)
    requires Evident(balance, s) && Watched(s) && Enabled(s, a) && !a.MonitorStart?
    ensures Watched(Apply(balance, s, a))
  {
    if Moves(a) {
      HandlerStepStaysWatched(balance, s, a);
    } else {
      OtherStepStaysWatched(balance, s, a);
    }
  }

  lemma {:induction false} RunsStayEvident(balance: Ownership.Balancer, run: seq<Action>)
    requires After(balance, run).Some?
    ensures Evident(balance, After(balance, run).value)
  {
    if run != [] {
      RunsStayEvident(balance, Init(run));
      StaysEvident(balance, After(balance, Init(run)).value, Last(run));
    }
  }

  /** A registered connection of the current revision, admitted in a generation that owned its room. */
  ghost predicate Current(balance: Ownership.Balancer, s: State, i: nat)
    requires At(s, i) && Passed(PhaseOf(s, i))
  {
    PhaseOf(s, i).h == s.own.revision && OwnedAt(balance, s.own, s.own.revision, s.handlers[i].room)
  }

  /** The monitor has taken the table for every revision up to the current one. */
  predicate CaughtUp(s: State) {
    s.monitor.Running? && !s.monitor.pending && s.monitor.last == s.own.revision
  }

  /** Once the monitor has caught up, every registered connection that passed both checks of its recheck
      is current. */
  ghost predicate FencedLive(balance: Ownership.Balancer, s: State) {
    CaughtUp(s) ==> forall i :: i in s.table.items && At(s, i) && Writes(PhaseOf(s, i)) ==> Current(balance, s, i)
  }

  /** The same, already from the revision check on. */
  ghost predicate Fenced(balance: Ownership.Balancer, s: State) {
    CaughtUp(s) ==> forall i :: i in s.table.items && At(s, i) && Passed(PhaseOf(s, i)) ==> Current(balance, s, i)
  }

  ghost predicate AlwaysFenced(balance: Ownership.Balancer, run: seq<Action>)
    requires After(balance, run).Some?
  {
    Fenced(balance, After(balance, run).value) && (run != [] ==> AlwaysFenced(balance, Init(run)))
  }

  ghost predicate NoneStale(s: State) {
    forall i :: i in s.table.items && At(s, i) && Passed(PhaseOf(s, i)) ==> PhaseOf(s, i).h == s.own.revision
  }

  /** When the monitor takes its first reading, no connection has passed its recheck at an older
      revision. */
  ghost predicate PromptStart(balance: Ownership.Balancer, run: seq<Action>)
    requires After(balance, run).Some?
  {
    run != [] ==>
      && PromptStart(balance, Init(run))
      && (Last(run).MonitorStart? ==> NoneStale(After(balance, Init(run)).value))
  }

  lemma {:induction false} PromptRunsStayWatched(balance: Ownership.Balancer, run: seq<Action>)
    requires After(balance, run).Some? && PromptStart(balance, run)
    ensures Watched(After(balance, run).value)
  {
    if run != [] {
      RunsStayEvident(balance, Init(run));
      PromptRunsStayWatched(balance, Init(run));
      if !Last(run).MonitorStart? {
        StaysWatched(balance, After(balance, Init(run)).value, Last(run));
      }
    }
  }

  /** Fencing from the revision check on holds throughout a run exactly when no connection past that
      check is stale at the monitor's first reading. */
  lemma {:induction false} FencedExactlyWhenPrompt(balance: Ownership.Balancer, run: seq<Action>)
    requires After(balance, run).Some?
    ensures AlwaysFenced(balance, run) <==> PromptStart(balance, run)
  {
    if run != [] {
      FencedExactlyWhenPrompt(balance, Init(run));
      RunsStayEvident(balance, run);
      if PromptStart(balance, run) {
        PromptRunsStayWatched(balance, run);
      }
    }
  }

  // ---------------------------------------------------------------------------------------------
  // The exact condition at the monitor's first reading
  // ---------------------------------------------------------------------------------------------

  lemma OneMoreStep(balance: Ownership.Balancer, run: seq<Action>, a: Action)
    requires After(balance, run).Some? && Enabled(After(balance, run).value, a)
    ensures After(balance, run + [a]) == Some(Apply(balance, After(balance, run).value, a))
  {
    assert Init(run + [a]) == run;
  }

  /** A stale connection past its revision check is harmless if its owner check is still to come and
      will fail: an update is being written, or its room is not owned at the revision read. */
  predicate Harmless(balance: Ownership.Balancer, own: Ownership.Guarded, hd: Handler) {
    hd.phase.RevisionOk? && (own.lock.Written? || !OwnedAt(balance, own, own.revision, hd.room))
  }

  predicate Clear(balance: Ownership.Balancer, own: Ownership.Guarded, hd: Handler) {
    Passed(hd.phase) && hd.phase.h != own.revision ==> Harmless(balance, own, hd)
  }

  /** Every stale registered connection past its revision check is harmless. */
  ghost predicate ClearStart(balance: Ownership.Balancer, s: State) {
    forall i :: i in s.table.items && At(s, i) ==> Clear(balance, s.own, s.handlers[i])
  }

  ghost predicate StaysClear(balance: Ownership.Balancer, s: State) {
    CaughtUp(s) ==> ClearStart(balance, s)
  }

  lemma MovedHandlerIsClear(balance: Ownership.Balancer, s: State, a: Action)
    requires Ownership.Consistent(s.own) && Enabled(s, a) && Moves(a)
    requires a.i in s.table.items ==> Clear(balance, s.own, s.handlers[a.i])
    ensures var s' := Apply(balance, s, a);
            At(s', a.i) && (a.i in s'.table.items ==> Clear(balance, s.own, s'.handlers[a.i]))
  {
  }

  lemma HandlerStepKeepsClear(balance: Ownership.Balancer, s: State, a: Action)
    requires Evident(balance, s) && StaysClear(balance, s) && Enabled(s, a) && Moves(a)
    ensures StaysClear(balance, Apply(balance, s, a))
  {
    MovesOneHandler(balance, s, a);
    MovesOnlyOwnConnection(balance, s, a);
    if CaughtUp(s) {
      MovedHandlerIsClear(balance, s, a);
    }
  }

  lemma OtherStepKeepsClear(balance: Ownership.Balancer, s: State, a: Action)
    requires Evident(balance, s) && StaysClear(balance, s) && Enabled(s, a) && !Moves(a) && !a.MonitorStart?
    ensures StaysClear(balance, Apply(balance, s, a))
  {
  }

  lemma KeepsClear(balance: Ownership.Balancer, s: State, a: Action)
    requires Evident(balance, s) && StaysClear(balance, s) && Enabled(s, a) && !s.monitor.NotStarted?
    ensures StaysClear(balance, Apply(balance, s, a)) && !Apply(balance, s, a).monitor.NotStarted?
  {
    if Moves(a) {
      MovesOneHandler(balance, s, a);
      HandlerStepKeepsClear(balance, s, a);
    } else {
      OtherStepKeepsClear(balance, s, a);
    }
  }

  lemma ClearIsFenced(balance: Ownership.Balancer, s: State)
    requires Evident(balance, s) && StaysClear(balance, s)
    ensures FencedLive(balance, s)
  {
    forall i | CaughtUp(s) && i in s.table.items && At(s, i) && Writes(PhaseOf(s, i))
      ensures Current(balance, s, i)
    {
      assert Clear(balance, s.own, s.handlers[i]) && Evidence(balance, s.own, s.handlers[i]);
    }
  }

  lemma {:induction false} ClearRunsStayFenced(balance: Ownership.Balancer, run: seq<Action>, more: seq<Action>)
    requires After(balance, run).Some? && After(balance, run + more).Some?
    requires StaysClear(balance, After(balance, run).value) && !After(balance, run).value.monitor.NotStarted?
    ensures var s := After(balance, run + more).value;
            StaysClear(balance, s) && FencedLive(balance, s) && !s.monitor.NotStarted?
    decreases |more|
  {
    if more == [] {
      assert run + more == run;
    } else {
      assert Init(run + more) == run + Init(more);
      ClearRunsStayFenced(balance, run, Init(more));
      RunsStayEvident(balance, run + Init(more));
      KeepsClear(balance, After(balance, run + Init(more)).value, Last(more));
    }
    RunsStayEvident(balance, run + more);
    ClearIsFenced(balance, After(balance, run + more).value);
  }

  /** A stale connection that is not harmless can pass its owner check before the monitor notices. */
  lemma StaleConnectionGetsThrough(balance: Ownership.Balancer, run: seq<Action>, i: nat) returns (more: seq<Action>)
    requires After(balance, run).Some?
    requires var s := After(balance, run).value;
             CaughtUp(s) && i in s.table.items && At(s, i) && !Clear(balance, s.own, s.handlers[i])
    ensures |more| <= 2 && After(balance, run + more).Some? && !FencedLive(balance, After(balance, run + more).value)
  {
    var s := After(balance, run).value;
    RunsStayEvident(balance, run);
    more := [];
    assert run + more == run;
    if PhaseOf(s, i).RevisionOk? {
      if s.own.lock.Raised? {
        OneMoreStep(balance, run, Own(Ownership.Unlock));
        more := [Own(Ownership.Unlock)];
      }
      OneMoreStep(balance, run + more, RecheckOwner(i));
      assert run + more + [RecheckOwner(i)] == run + (more + [RecheckOwner(i)]);
      more := more + [RecheckOwner(i)];
    }
  }

  /** Whatever happened before and whatever happens afterwards: after the monitor's first reading every
      connection past its recheck is fenced for good if and only if, at that reading, every stale
      connection past its revision check is harmless. */
  lemma FencedExactlyWhenClear(balance: Ownership.Balancer, run: seq<Action>)
    requires After(balance, run + [MonitorStart]).Some?
    ensures After(balance, run).Some?
    ensures ClearStart(balance, After(balance, run).value) <==>
            forall more :: After(balance, run + [MonitorStart] + more).Some? ==>
              FencedLive(balance, After(balance, run + [MonitorStart] + more).value)
  {
    var started := run + [MonitorStart];
    assert Init(started) == run;
    var s := After(balance, run).value;
    if ClearStart(balance, s) {
      forall more | After(balance, started + more).Some?
        ensures FencedLive(balance, After(balance, started + more).value)
      {
        ClearRunsStayFenced(balance, started, more);
      }
    } else {
      var i :| i in s.table.items && At(s, i) && !Clear(balance, s.own, s.handlers[i]);
      var more := StaleConnectionGetsThrough(balance, started, i);
      assert !FencedLive(balance, After(balance, started + more).value);
    }
  }

  const ONE_PARTITION := Ownership.Snapshot([0], {0})

  const OWNER := Ownership.Guarded(ONE_PARTITION, 1, Ownership.Free, [Ownership.NOTHING, ONE_PARTITION])

  /** A gateway that has been given partition 0 and has had no handshake yet. */
  lemma OwnershipInstalled(balance: Ownership.Balancer) returns (run: seq<Action>)
    ensures After(balance, run) == Some(INITIAL.(own := OWNER))
  {
    var install := Ownership.Install([0], [0]);
    Ownership.InstallOne(Ownership.NOTHING, 0);
    assert [Ownership.NOTHING] + [ONE_PARTITION] == [Ownership.NOTHING, ONE_PARTITION];
    run := [];
    OneMoreStep(balance, run, Own(Ownership.Write(install)));
    run := run + [Own(Ownership.Write(install))];
    OneMoreStep(balance, run, Own(Ownership.Raise));
    run := run + [Own(Ownership.Raise)];
    OneMoreStep(balance, run, Own(Ownership.Unlock));
    run := run + [Own(Ownership.Unlock)];
  }

  /** Its first handshake, up to the owner check. */
  lemma HandshakeAdmitted(balance: Ownership.Balancer) returns (run: seq<Action>)
    requires balance("r", [0]) == 0
    ensures After(balance, run).Some?
    ensures var s := After(balance, run).value;
            && s.own == OWNER && s.handlers == [Handler("r", "u", Admitted(1))]
            && s.table == INITIAL.table && s.monitor.NotStarted? && s.rooms == map[]
  {
    TrimmedIsFixed("r");
    TrimmedIsFixed("u");
    run := OwnershipInstalled(balance);
    OneMoreStep(balance, run, Arrive("u", "r"));
    run := run + [Arrive("u", "r")];
    OneMoreStep(balance, run, ReadRevision(0));
    run := run + [ReadRevision(0)];
    OneMoreStep(balance, run, CheckOwner(0));
    run := run + [CheckOwner(0)];
  }

  /** The same handshake, up to the join. */
  lemma HandshakeJoined(balance: Ownership.Balancer) returns (run: seq<Action>)
    requires balance("r", [0]) == 0
    ensures After(balance, run).Some?
    ensures var s := After(balance, run).value;
            && s.own == OWNER && s.handlers == [Handler("r", "u", Joined(1, 0))]
            && s.table == INITIAL.table && s.monitor.NotStarted?
  {
    TrimmedIsFixed("u");
    run := HandshakeAdmitted(balance);
    OneMoreStep(balance, run, Upgrade(0, true));
    run := run + [Upgrade(0, true)];
    OneMoreStep(balance, run, FindRoom(0));
    run := run + [FindRoom(0)];
    OneMoreStep(balance, run, JoinRoom(0));
    run := run + [JoinRoom(0)];
  }

  /** The same handshake, up to the first part of the recheck. */
  lemma ConnectionRechecked(balance: Ownership.Balancer) returns (run: seq<Action>)
    requires balance("r", [0]) == 0
    ensures After(balance, run).Some?
    ensures var s := After(balance, run).value;
            && s.own == OWNER && s.handlers == [Handler("r", "u", RevisionOk(1, 0))]
            && s.table.items == {0} && s.monitor.NotStarted?
  {
    run := HandshakeJoined(balance);
    OneMoreStep(balance, run, Register(0));
    run := run + [Register(0)];
    OneMoreStep(balance, run, RecheckRevision(0));
    run := run + [RecheckRevision(0)];
  }

  /** Fencing does fail when the monitor is late: a connection passes its recheck, the partition is
      lost, and only then the monitor takes its first reading, which it takes for the old one. */
  lemma LateMonitorMissesConnection() returns (balance: Ownership.Balancer, run: seq<Action>)
    ensures After(balance, run).Some?
    ensures var s := After(balance, run).value;
            && s.handlers == [Handler("r", "u", Live(1, 0))] && s.table.items == {0}
            && s.own.revision == 2 && s.own.lock.Free? && s.own.current.owned == {}
            && CaughtUp(s) && !FencedLive(balance, s)
  {
    balance := (_, _) => 0;
    run := ConnectionRechecked(balance);
    OneMoreStep(balance, run, RecheckOwner(0));
    run := run + [RecheckOwner(0)];
    OneMoreStep(balance, run, Own(Ownership.Write(Ownership.Clear)));
    run := run + [Own(Ownership.Write(Ownership.Clear))];
    OneMoreStep(balance, run, Own(Ownership.Raise));
    run := run + [Own(Ownership.Raise)];
    OneMoreStep(balance, run, Own(Ownership.Unlock));
    run := run + [Own(Ownership.Unlock)];
    OneMoreStep(balance, run, MonitorStart);
    run := run + [MonitorStart];
    var s := After(balance, run).value;
    assert 0 in s.table.items && At(s, 0) && Writes(PhaseOf(s, 0));
  }

  /** No handshake reads the revision before the monitor's first reading. */
  ghost predicate MonitorFirst(balance: Ownership.Balancer, run: seq<Action>)
    requires After(balance, run).Some?
  {
    run != [] ==>
      && MonitorFirst(balance, Init(run))
      && (Last(run).ReadRevision? ==> !After(balance, Init(run)).value.monitor.NotStarted?)
  }

  /** No handler has got beyond its arrival. */
  ghost predicate NoneStarted(s: State) {
    forall i :: 0 <= i < |s.handlers| ==> s.handlers[i].phase.Arrived?
  }

  lemma StaysUnstarted(balance: Ownership.Balancer, s: State, a: Action)
    requires NoneStarted(s) && Enabled(s, a) && !a.ReadRevision?
    ensures NoneStarted(Apply(balance, s, a))
  {
  }

  lemma {:induction false} MonitorFirstIsPrompt(balance: Ownership.Balancer, run: seq<Action>)
    requires After(balance, run).Some? && MonitorFirst(balance, run)
    ensures PromptStart(balance, run)
    ensures Enabled(After(balance, run).value, MonitorStart) ==> ClearStart(balance, After(balance, run).value)
    ensures After(balance, run).value.monitor.NotStarted? ==> NoneStarted(After(balance, run).value)
  {
    if run != [] {
      MonitorFirstIsPrompt(balance, Init(run));
      if After(balance, Init(run)).value.monitor.NotStarted? {
        StaysUnstarted(balance, After(balance, Init(run)).value, Last(run));
      }
    }
  }

  /** The monitor catches up in at most two of its own steps. */
  lemma MonitorCatchesUp(balance: Ownership.Balancer, s: State)
    requires Evident(balance, s) && Watched(s) && s.monitor.Running? && !s.monitor.pending
    ensures var ticked := Apply(balance, s, MonitorTick);
            var caught := if ticked.monitor.pending then Apply(balance, ticked, MonitorScan) else ticked;
            && caught.monitor == Running(s.own.revision, false)
            && Fenced(balance, caught) && FencedLive(balance, caught)
            && (s.monitor.last != s.own.revision ==> caught.table.items == {})
  {
  }

  // ---------------------------------------------------------------------------------------------
  // Every connection is accounted for
  // ---------------------------------------------------------------------------------------------

  ghost function Union(batches: seq<set<nat>>): set<nat> {
    if batches == [] then {} else Union(Init(batches)) + Last(batches)
  }

  lemma {:induction false} BatchInUnion(batches: seq<set<nat>>, b: nat)
    requires b < |batches|
    ensures batches[b] <= Union(batches)
  {
    if b < |batches| - 1 {
      BatchInUnion(Init(batches), b);
    }
  }

  predicate InTable(phase: Phase) {
    phase.Registered? || phase.RevisionOk? || phase.Stale? || phase.Live? || phase.Departing?
  }

  /** Where the handlers of registered connections are. */
  ghost predicate Placed(s: State) {
    && s.table.items <= s.registered
    && (forall i :: i in s.registered ==> At(s, i))
    && (forall i :: 0 <= i < |s.handlers| ==> PlacedAt(s.handlers[i].phase, i in s.registered, i in s.table.items))
  }

  predicate PlacedAt(phase: Phase, registered: bool, inTable: bool) {
    && (registered ==> InTable(phase) || phase.Withdrawn? || phase.Done?)
    && (inTable ==> InTable(phase))
  }

  /** A connection leaves the table into one ownership batch or by its own handler. */
  ghost predicate Accounted(s: State) {
    && s.table.items <= s.registered
    && Union(s.ownershipBatches) <= s.registered
    && Union(s.ownershipBatches) !! s.table.items
    && s.registered <= s.table.items + Union(s.ownershipBatches) + s.removed
    && (forall a, b :: 0 <= a < b < |s.ownershipBatches| ==> s.ownershipBatches[a] !! s.ownershipBatches[b])
  }

  /** After shutdown has begun the table only shrinks, within the first snapshot. */
  ghost predicate Closed(s: State) {
    && (s.table.closing <==> s.restartBatches != [])
    && (s.table.closing ==> s.table.items <= s.restartBatches[0])
  }

  lemma MovedHandlerIsPlaced(balance: Ownership.Balancer, s: State, a: Action)
    requires Enabled(s, a) && Moves(a)
    requires PlacedAt(PhaseOf(s, a.i), a.i in s.registered, a.i in s.table.items)
    ensures var s' := Apply(balance, s, a);
            && At(s', a.i) && PlacedAt(PhaseOf(s', a.i), a.i in s'.registered, a.i in s'.table.items)
            && (s.table.items <= s.registered ==> s'.table.items <= s'.registered)
  {
  }

  lemma HandlerStepStaysPlaced(balance: Ownership.Balancer, s: State, a: Action)
    requires Placed(s) && Enabled(s, a) && Moves(a)
    ensures Placed(Apply(balance, s, a))
  {
    MovesOneHandler(balance, s, a);
    MovedHandlerIsPlaced(balance, s, a);
    MovesOnlyOwnConnection(balance, s, a);
  }

  lemma OtherStepStaysPlaced(balance: Ownership.Balancer, s: State, a: Action)
    requires Placed(s) && Enabled(s, a) && !Moves(a)
    ensures Placed(Apply(balance, s, a))
  {
  }

  lemma StaysPlaced(balance: Ownership.Balancer, s: State, a: Action)
    requires Placed(s) && Enabled(s, a)
    ensures Placed(Apply(balance, s, a))
  {
    if Moves(a) {
      HandlerStepStaysPlaced(balance, s, a);
    } else {
      OtherStepStaysPlaced(balance, s, a);
    }
  }

  lemma ScanStaysAccounted(s: State)
    requires Accounted(s) && Enabled(s, MonitorScan)
    ensures Accounted(s.(table := TakeAll(s.table).0, ownershipBatches := s.ownershipBatches + [s.table.items]))
  {
    var batches := s.ownershipBatches + [s.table.items];
    assert Init(batches) == s.ownershipBatches;
    forall b | 0 <= b < |s.ownershipBatches|
      ensures s.ownershipBatches[b] !! s.table.items
    {
      BatchInUnion(s.ownershipBatches, b);
    }
  }

  lemma StaysAccounted(balance: Ownership.Balancer, s: State, a: Action)
    requires Placed(s) && Accounted(s) && Enabled(s, a)
    ensures Accounted(Apply(balance, s, a))
  {
    if a.MonitorScan? {
      ScanStaysAccounted(s);
    } else {
      assert Apply(balance, s, a).ownershipBatches == s.ownershipBatches;
    }
  }

  /** From the moment the closing flag is set nothing is registered any more. */
  lemma StaysClosed(balance: Ownership.Balancer, s: State, a: Action)
    requires Closed(s) && Enabled(s, a)
    ensures var s' := Apply(balance, s, a);
            && Closed(s')
            && (s.table.closing ==> s'.table.closing && s'.registered == s.registered && s'.table.items <= s.table.items)
  {
  }

  /** In every reachable state no connection is in two ownership batches; once shutdown has set the
      closing flag, the table is within the shutdown snapshot, and every connection ever registered
      was put in a close batch or removed by its own handler. */
  lemma {:induction false} EveryConnectionAccounted(balance: Ownership.Balancer, run: seq<Action>)
    requires After(balance, run).Some?
    ensures var s := After(balance, run).value;
            && Placed(s) && Accounted(s) && Closed(s)
            && (forall a, b :: 0 <= a < b < |s.ownershipBatches| ==> s.ownershipBatches[a] !! s.ownershipBatches[b])
            && (s.table.closing ==>
                  && s.table.items <= s.restartBatches[0]
                  && s.registered <= s.restartBatches[0] + Union(s.ownershipBatches) + s.removed)
  {
    if run != [] {
      EveryConnectionAccounted(balance, Init(run));
      var s := After(balance, Init(run)).value;
      StaysPlaced(balance, s, Last(run));
      StaysAccounted(balance, s, Last(run));
      StaysClosed(balance, s, Last(run));
    }
  }

  // ---------------------------------------------------------------------------------------------
  // Rooms
  // ---------------------------------------------------------------------------------------------

  type Members = map<string, map<string, nat>>

  function MembersOf(rooms: map<string, Room.State>): Members {
    map r | r in rooms :: rooms[r].clients
  }

  function WithMember(members: Members, r: string, u: string, session: nat): Members
    requires r in members
  {
    var clients: map<string, nat> := members[r][u := session];
    members[r := clients]
  }

  predicate Occupies(hd: Handler, r: string, u: string) {
    Seated(hd.phase) && hd.room == r && hd.user == u
  }

  ghost predicate Occupied(handlers: seq<Handler>, r: string, u: string) {
    exists i :: 0 <= i < |handlers| && Occupies(handlers[i], r, u)
  }

  /** A seated handler is the member of its room under its user, with its own session. */
  predicate HasSeat(members: Members, hd: Handler) {
    Seated(hd.phase) ==>
      hd.room in members && hd.user in members[hd.room] && members[hd.room][hd.user] == hd.phase.session
  }

  predicate SameSeat(one: Handler, other: Handler) {
    Seated(one.phase) && Seated(other.phase) && one.room == other.room && one.user == other.user
  }

  /** Every seated handler is a member; no two handlers share a seat; and every member is some seated
      handler. */
  ghost predicate Seating(handlers: seq<Handler>, members: Members) {
    && (forall i :: 0 <= i < |handlers| ==> HasSeat(members, handlers[i]))
    && (forall i, j :: 0 <= i < j < |handlers| ==> !SameSeat(handlers[i], handlers[j]))
    && (forall r, u :: r in members && u in members[r] ==> Occupied(handlers, r, u))
  }

  lemma StillOccupied(handlers: seq<Handler>, i: nat, moved: Handler, r: string, u: string)
    requires i < |handlers| && Occupied(handlers, r, u) && !Occupies(handlers[i], r, u)
    ensures Occupied(handlers[i := moved], r, u)
  {
    var k :| 0 <= k < |handlers| && Occupies(handlers[k], r, u);
    assert Occupies(handlers[i := moved][k], r, u);
  }

  lemma SeatTaken(handlers: seq<Handler>, members: Members, i: nat, phase: Phase)
    requires Seating(handlers, members) && i < |handlers| && !Seated(handlers[i].phase) && Seated(phase)
    requires handlers[i].room in members && handlers[i].user !in members[handlers[i].room]
    ensures var hd := handlers[i];
            Seating(handlers[i := hd.(phase := phase)], WithMember(members, hd.room, hd.user, phase.session))
  {
    var hd, moved := handlers[i], handlers[i].(phase := phase);
    var handlers', members' := handlers[i := moved], WithMember(members, hd.room, hd.user, phase.session);
    forall k | 0 <= k < |handlers| && k != i
      ensures HasSeat(members', handlers[k]) && !SameSeat(handlers[k], moved)
    {
      assert HasSeat(members, handlers[k]);
    }
    forall r, u | r in members' && u in members'[r]
      ensures Occupied(handlers', r, u)
    {
      if r == hd.room && u == hd.user {
        assert Occupies(handlers'[i], r, u);
      } else {
        StillOccupied(handlers, i, moved, r, u);
      }
    }
  }

  lemma SeatLeft(handlers: seq<Handler>, members: Members, i: nat, phase: Phase)
    requires Seating(handlers, members) && i < |handlers| && Seated(handlers[i].phase) && !Seated(phase)
    ensures var hd := handlers[i];
            Seating(handlers[i := hd.(phase := phase)], members[hd.room := members[hd.room] - {hd.user}])
  {
    var hd := handlers[i];
    var handlers', members' := handlers[i := hd.(phase := phase)], members[hd.room := members[hd.room] - {hd.user}];
    forall r, u | r in members' && u in members'[r]
      ensures Occupied(handlers', r, u)
    {
      StillOccupied(handlers, i, hd.(phase := phase), r, u);
    }
  }

  /** Handlers may arrive, and move on without changing seats; rooms may be created. */
  lemma SeatsKept(handlers: seq<Handler>, handlers': seq<Handler>, members: Members, members': Members)
    requires Seating(handlers, members) && |handlers| <= |handlers'|
    requires forall i :: 0 <= i < |handlers| ==>
               && handlers'[i].room == handlers[i].room && handlers'[i].user == handlers[i].user
               && Seated(handlers'[i].phase) == Seated(handlers[i].phase)
               && (Seated(handlers[i].phase) ==> handlers'[i].phase.session == handlers[i].phase.session)
    requires forall i :: |handlers| <= i < |handlers'| ==> !Seated(handlers'[i].phase)
    requires forall r :: r in members ==> r in members' && members'[r] == members[r]
    requires forall r :: r in members' && r !in members ==> members'[r] == map[]
    ensures Seating(handlers', members')
  {
    forall r, u | r in members' && u in members'[r]
      ensures Occupied(handlers', r, u)
    {
      var k :| 0 <= k < |handlers| && Occupies(handlers[k], r, u);
      assert Occupies(handlers'[k], r, u);
    }
  }

  ghost predicate RoomsValid(rooms: map<string, Room.State>) {
    forall r :: r in rooms ==> Room.Valid(rooms[r])
  }

  lemma InRoomStaysValid(s: State, room: string, op: Room.Op)
    requires room in s.rooms && RoomsValid(s.rooms)
    ensures RoomsValid(InRoom(s, room, op).rooms)
  {
    Room.ApplyStaysValid(s.rooms[room], op);
  }

  lemma RoomsStayValid(balance: Ownership.Balancer, s: State, a: Action)
    requires RoomsValid(s.rooms) && Enabled(s, a)
    ensures RoomsValid(Apply(balance, s, a).rooms)
  {
    match a
    case JoinRoom(i) => InRoomStaysValid(s, s.handlers[i].room, Room.Join(s.handlers[i].user));
    case LeaveRoom(i) => InRoomStaysValid(s, s.handlers[i].room, Room.Leave(s.handlers[i].user));
    case Broadcast(roomID, content) => InRoomStaysValid(s, TrimSpace(roomID), Room.Publish(content));
    case Receive(i) => InRoomStaysValid(s, s.handlers[i].room, Room.Receive(PhaseOf(s, i).session));
    case _ =>
  }

  /** The members after one call on one room. */
  lemma MembersAfter(s: State, room: string, op: Room.Op)
    requires room in s.rooms
    ensures MembersOf(InRoom(s, room, op).rooms) ==
            var members, clients := MembersOf(s.rooms), s.rooms[room].clients;
            match op
            case Join(user) =>
              if Room.TryJoin(s.rooms[room], user).Ok? then WithMember(members, room, user, |s.rooms[room].sessions|)
              else members
            case Leave(user) => members[room := clients - {user}]
            case _ => members
  {
    var members, rooms' := MembersOf(s.rooms), InRoom(s, room, op).rooms;
    assert members[room := s.rooms[room].clients] == members;
    assert MembersOf(rooms') == members[room := rooms'[room].clients];
    if op.Leave? && op.user !in s.rooms[room].clients {
      assert s.rooms[room].clients - {op.user} == s.rooms[room].clients;
    }
  }

  lemma JoinStaysSeating(balance: Ownership.Balancer, s: State, i: nat)
    requires Seating(s.handlers, MembersOf(s.rooms)) && Enabled(s, JoinRoom(i))
    ensures var s' := Apply(balance, s, JoinRoom(i)); Seating(s'.handlers, MembersOf(s'.rooms))
  {
    var hd, members := s.handlers[i], MembersOf(s.rooms);
    MembersAfter(s, hd.room, Room.Join(hd.user));
    if Room.TryJoin(s.rooms[hd.room], hd.user).Ok? {
      SeatTaken(s.handlers, members, i, Joined(hd.phase.h, |s.rooms[hd.room].sessions|));
    } else {
      SeatsKept(s.handlers, s.handlers[i := hd.(phase := Done)], members, members);
    }
  }

  lemma LeaveStaysSeating(balance: Ownership.Balancer, s: State, i: nat)
    requires Seating(s.handlers, MembersOf(s.rooms)) && Enabled(s, LeaveRoom(i))
    ensures var s' := Apply(balance, s, LeaveRoom(i)); Seating(s'.handlers, MembersOf(s'.rooms))
  {
    var hd := s.handlers[i];
    MembersAfter(s, hd.room, Room.Leave(hd.user));
    SeatLeft(s.handlers, MembersOf(s.rooms), i, if hd.phase.Live? then Departing(hd.phase.h, hd.phase.session) else Done);
  }

  lemma RoomCallStaysSeating(balance: Ownership.Balancer, s: State, a: Action)
    requires Seating(s.handlers, MembersOf(s.rooms)) && Enabled(s, a) && (a.Broadcast? || a.Receive?)
    ensures var s' := Apply(balance, s, a); Seating(s'.handlers, MembersOf(s'.rooms))
  {
    match a
    case Broadcast(roomID, content) => MembersAfter(s, TrimSpace(roomID), Room.Publish(content));
    case Receive(i) => MembersAfter(s, s.handlers[i].room, Room.Receive(PhaseOf(s, i).session));
  }

  /** A handler moves on, keeping its seat if it has one. */
  lemma MovingOnStaysSeating(s: State, i: nat, phase: Phase)
    requires Seating(s.handlers, MembersOf(s.rooms)) && At(s, i) && Seated(phase) == Seated(PhaseOf(s, i))
    requires Seated(phase) ==> phase.session == PhaseOf(s, i).session
    ensures Seating(SetPhase(s, i, phase).handlers, MembersOf(s.rooms))
  {
    SeatsKept(s.handlers, SetPhase(s, i, phase).handlers, MembersOf(s.rooms), MembersOf(s.rooms));
  }

  lemma NewRoomStaysSeating(handlers: seq<Handler>, rooms: map<string, Room.State>, room: string)
    requires Seating(handlers, MembersOf(rooms)) && room !in rooms
    ensures Seating(handlers, MembersOf(rooms[room := Room.EMPTY]))
  {
    SeatsKept(handlers, handlers, MembersOf(rooms), MembersOf(rooms[room := Room.EMPTY]));
  }

  lemma HandlerStepStaysSeating(balance: Ownership.Balancer, s: State, a: Action)
    requires Seating(s.handlers, MembersOf(s.rooms)) && Enabled(s, a) && MovesHandler(a)
    ensures var s' := Apply(balance, s, a); Seating(s'.handlers, MembersOf(s'.rooms))
  {
    var s' := Apply(balance, s, a);
    MovingOnStaysSeating(s, a.i, s'.handlers[a.i].phase);
    if a.FindRoom? && s.handlers[a.i].room !in s.rooms {
      NewRoomStaysSeating(s'.handlers, s.rooms, s.handlers[a.i].room);
    }
  }

  lemma OtherStepStaysSeating(balance: Ownership.Balancer, s: State, a: Action)
    requires Seating(s.handlers, MembersOf(s.rooms)) && Enabled(s, a) && !CallsRoom(a) && !MovesHandler(a)
    ensures var s' := Apply(balance, s, a); Seating(s'.handlers, MembersOf(s'.rooms))
  {
    var s' := Apply(balance, s, a);
    SeatsKept(s.handlers, s'.handlers, MembersOf(s.rooms), MembersOf(s.rooms));
  }

  lemma StaysSeating(balance: Ownership.Balancer, s: State, a: Action)
    requires Seating(s.handlers, MembersOf(s.rooms)) && Enabled(s, a)
    ensures var s' := Apply(balance, s, a); Seating(s'.handlers, MembersOf(s'.rooms))
  {
    match a
    case JoinRoom(i) => JoinStaysSeating(balance, s, i);
    case LeaveRoom(i) => LeaveStaysSeating(balance, s, i);
    case Broadcast(_, _) => RoomCallStaysSeating(balance, s, a);
    case Receive(_) => RoomCallStaysSeating(balance, s, a);
    case _ =>
      if MovesHandler(a) {
        HandlerStepStaysSeating(balance, s, a);
      } else {
        OtherStepStaysSeating(balance, s, a);
      }
  }

  /** In every reachable state the members of the rooms are exactly the sessions between their join
      and their leave. */
  lemma {:induction false} MembersAreSeatedHandlers(balance: Ownership.Balancer, run: seq<Action>)
    requires After(balance, run).Some?
    ensures var s := After(balance, run).value;
            Seating(s.handlers, MembersOf(s.rooms)) && RoomsValid(s.rooms)
  {
    if run != [] {
      MembersAreSeatedHandlers(balance, Init(run));
      RoomsStayValid(balance, After(balance, Init(run)).value, Last(run));
      StaysSeating(balance, After(balance, Init(run)).value, Last(run));
    }
  }

  // ---------------------------------------------------------------------------------------------
  // Who gets in
  // ---------------------------------------------------------------------------------------------

  ghost predicate Named(hd: Handler) {
    Trimmed(hd.user) && hd.user != "" && Trimmed(hd.room) && hd.room != ""
  }

  ghost predicate AllNamed(s: State) {
    forall i :: 0 <= i < |s.handlers| ==> Named(s.handlers[i])
  }

  lemma StaysNamed(balance: Ownership.Balancer, s: State, a: Action)
    requires AllNamed(s) && Enabled(s, a)
    ensures AllNamed(Apply(balance, s, a))
  {
    if Moves(a) {
      MovesOneHandler(balance, s, a);
    } else if a.Arrive? {
      TrimSpaceIsTrimmed(a.userID);
      TrimSpaceIsTrimmed(a.roomID);
    }
  }

  /** Every handler serves a user and a room with trimmed names that are not empty. */
  lemma {:induction false} HandlersAreNamed(balance: Ownership.Balancer, run: seq<Action>)
    requires After(balance, run).Some?
    ensures AllNamed(After(balance, run).value)
  {
    if run != [] {
      HandlersAreNamed(balance, Init(run));
      StaysNamed(balance, After(balance, Init(run)).value, Last(run));
    }
  }

  /** A handshake is turned away by its room exactly if another handler of the same user is seated in it. */
  lemma JoinRefusedExactlyWhenSeated(balance: Ownership.Balancer, run: seq<Action>, i: nat)
    requires After(balance, run).Some? && Enabled(After(balance, run).value, JoinRoom(i))
    ensures var s := After(balance, run).value;
            var phase := PhaseOf(Apply(balance, s, JoinRoom(i)), i);
            && (phase.Done? <==>
                  exists k :: 0 <= k < |s.handlers| && Occupies(s.handlers[k], s.handlers[i].room, s.handlers[i].user))
            && (phase.Joined? <==> !phase.Done?)
  {
    var s := After(balance, run).value;
    var hd, room := s.handlers[i], s.rooms[s.handlers[i].room];
    MembersAreSeatedHandlers(balance, run);
    HandlersAreNamed(balance, run);
    assert Named(hd) && Trimmed(hd.user);
    TrimmedIsFixed(hd.user);
    assert hd.user in room.clients <==> Occupied(s.handlers, hd.room, hd.user) by {
      var members := MembersOf(s.rooms);
      assert members[hd.room] == room.clients;
      if k :| 0 <= k < |s.handlers| && Occupies(s.handlers[k], hd.room, hd.user) {
        assert HasSeat(members, s.handlers[k]);
      }
    }
  }

  /** The phases that come after the handler has found its room. */
  predicate HasRoom(phase: Phase) {
    phase.RoomFound? || Seated(phase) || phase.Departing?
  }

  ghost predicate RoomsFound(s: State) {
    forall i :: 0 <= i < |s.handlers| && HasRoom(s.handlers[i].phase) ==> s.handlers[i].room in s.rooms
  }

  lemma RoomsNeverVanish(balance: Ownership.Balancer, s: State, a: Action)
    requires Enabled(s, a)
    ensures s.rooms.Keys <= Apply(balance, s, a).rooms.Keys
  {
  }

  lemma MovedHandlerHasRoom(balance: Ownership.Balancer, s: State, a: Action)
    requires Enabled(s, a) && Moves(a) && (HasRoom(PhaseOf(s, a.i)) ==> s.handlers[a.i].room in s.rooms)
    ensures var s' := Apply(balance, s, a);
            At(s', a.i) && (HasRoom(PhaseOf(s', a.i)) ==> s'.handlers[a.i].room in s'.rooms)
  {
  }

  lemma StaysRoomsFound(balance: Ownership.Balancer, s: State, a: Action)
    requires RoomsFound(s) && Enabled(s, a)
    ensures RoomsFound(Apply(balance, s, a))
  {
    RoomsNeverVanish(balance, s, a);
    if Moves(a) {
      MovesOneHandler(balance, s, a);
      MovedHandlerHasRoom(balance, s, a);
    }
  }

  lemma {:induction false} RunsStayRoomsFound(balance: Ownership.Balancer, run: seq<Action>)
    requires After(balance, run).Some?
    ensures RoomsFound(After(balance, run).value)
  {
    if run != [] {
      RunsStayRoomsFound(balance, Init(run));
      StaysRoomsFound(balance, After(balance, Init(run)).value, Last(run));
    }
  }

  /** How many steps of its own a handler has before it at most. */
  function StepsToGo(phase: Phase): nat {
    match phase
    case Arrived => 10
    case RevisionRead(_) => 9
    case Admitted(_) => 8
    case Upgraded(_) => 7
    case RoomFound(_) => 6
    case Joined(_, _) => 5
    case Registered(_, _) => 4
    case RevisionOk(_, _) => 3
    case Stale(_) => 2
    case Live(_, _) => 2
    case Refused(_) => 1
    case Withdrawn(_) => 1
    case Departing(_, _) => 1
    case Done => 0
  }

  lemma HandlerStepsAreFew(balance: Ownership.Balancer, s: State, a: Action)
    requires Enabled(s, a) && Moves(a)
    ensures At(Apply(balance, s, a), a.i)
    ensures StepsToGo(PhaseOf(Apply(balance, s, a), a.i)) < StepsToGo(PhaseOf(s, a.i))
  {
  }

  /** No handler gets stuck: until it is done it can take its next step, at the latest when a running
      ownership update has released its lock. */
  lemma HandlersNeverStuck(balance: Ownership.Balancer, run: seq<Action>, i: nat) returns (a: Action)
    requires After(balance, run).Some? && At(After(balance, run).value, i)
    requires !PhaseOf(After(balance, run).value, i).Done? && After(balance, run).value.own.lock.Free?
    ensures Moves(a) && a.i == i && Enabled(After(balance, run).value, a)
  {
    RunsStayRoomsFound(balance, run);
    match PhaseOf(After(balance, run).value, i)
    case Arrived => a := ReadRevision(i);
    case RevisionRead(_) => a := CheckOwner(i);
    case Admitted(_) => a := Upgrade(i, true);
    case Upgraded(_) => a := FindRoom(i);
    case RoomFound(_) => a := JoinRoom(i);
    case Joined(_, _) => a := Register(i);
    case Registered(_, _) => a := RecheckRevision(i);
    case RevisionOk(_, _) => a := RecheckOwner(i);
    case Stale(_) => a := Unregister(i);
    case Departing(_, _) => a := Unregister(i);
    case Refused(_) => a := LeaveRoom(i);
    case Withdrawn(_) => a := LeaveRoom(i);
    case Live(_, _) => a := LeaveRoom(i);
  }

  /** Draining, once begun, does not end, and no handshake starts any more. */
  lemma DrainStopsArrivals(balance: Ownership.Balancer, s: State, a: Action)
    requires Enabled(s, a)
    ensures Apply(balance, s, Drain).draining
    ensures s.draining ==> Apply(balance, s, a).draining && |Apply(balance, s, a).handlers| == |s.handlers|
  {
    if Moves(a) {
      MovesOneHandler(balance, s, a);
    }
  }

  /** Nothing stands in the way of a handshake for this user and room. */
  ghost predicate Welcome(balance: Ownership.Balancer, s: State, user: string, room: string) {
    && !s.draining && !s.table.closing && s.own.lock.Free? && Ownership.OwnsRoom(balance, s.own.current, room)
    && !Occupied(s.handlers, room, user)
  }

  /** The handler of the handshake that starts after the run. */
  function Newcomer(balance: Ownership.Balancer, run: seq<Action>): nat
    requires After(balance, run).Some?
  {
    |After(balance, run).value.handlers|
  }

  /** The newcomer stands at this phase and nobody else has moved. */
  ghost predicate ComesTo(s: State, t: State, user: string, room: string, phase: Phase) {
    && t.own == s.own && t.table == s.table && t.draining == s.draining
    && t.handlers == s.handlers + [Handler(room, user, phase)]
  }

  lemma StillWelcome(balance: Ownership.Balancer, s: State, t: State, user: string, room: string, phase: Phase)
    requires Welcome(balance, s, user, room) && ComesTo(s, t, user, room, phase) && !Seated(phase)
    ensures !Occupied(t.handlers, room, user)
  {
    forall k | 0 <= k < |s.handlers|
      ensures !Occupies(t.handlers[k], room, user)
    {
      assert t.handlers[k] == s.handlers[k] && !Occupies(s.handlers[k], room, user);
    }
  }

  lemma NewcomerAdmitted(balance: Ownership.Balancer, run: seq<Action>, userID: string, roomID: string)
    returns (longer: seq<Action>)
    requires After(balance, run).Some? && !Blank(userID) && !Blank(roomID)
    requires Welcome(balance, After(balance, run).value, TrimSpace(userID), TrimSpace(roomID))
    ensures After(balance, longer).Some?
    ensures var s := After(balance, run).value;
            ComesTo(s, After(balance, longer).value, TrimSpace(userID), TrimSpace(roomID), Admitted(s.own.revision))
  {
    var s, i := After(balance, run).value, Newcomer(balance, run);
    TrimSpaceIsTrimmed(userID);
    TrimSpaceIsTrimmed(roomID);
    OneMoreStep(balance, run, Arrive(userID, roomID));
    longer := run + [Arrive(userID, roomID)];
    OneMoreStep(balance, longer, ReadRevision(i));
    longer := longer + [ReadRevision(i)];
    OneMoreStep(balance, longer, CheckOwner(i));
    longer := longer + [CheckOwner(i)];
  }

  lemma NewcomerFindsRoom(balance: Ownership.Balancer, run: seq<Action>, userID: string, roomID: string)
    returns (longer: seq<Action>)
    requires After(balance, run).Some? && !Blank(userID) && !Blank(roomID)
    requires Welcome(balance, After(balance, run).value, TrimSpace(userID), TrimSpace(roomID))
    ensures After(balance, longer).Some?
    ensures var s, t := After(balance, run).value, After(balance, longer).value;
            && ComesTo(s, t, TrimSpace(userID), TrimSpace(roomID), RoomFound(s.own.revision))
            && Enabled(t, JoinRoom(Newcomer(balance, run)))
  {
    var i := Newcomer(balance, run);
    longer := NewcomerAdmitted(balance, run, userID, roomID);
    OneMoreStep(balance, longer, Upgrade(i, true));
    longer := longer + [Upgrade(i, true)];
    OneMoreStep(balance, longer, FindRoom(i));
    longer := longer + [FindRoom(i)];
  }

  lemma NewcomerJoins(balance: Ownership.Balancer, run: seq<Action>, userID: string, roomID: string)
    returns (longer: seq<Action>, session: nat)
    requires After(balance, run).Some? && !Blank(userID) && !Blank(roomID)
    requires Welcome(balance, After(balance, run).value, TrimSpace(userID), TrimSpace(roomID))
    ensures After(balance, longer).Some?
    ensures var s := After(balance, run).value;
            ComesTo(s, After(balance, longer).value, TrimSpace(userID), TrimSpace(roomID), Joined(s.own.revision, session))
  {
    var s, i := After(balance, run).value, Newcomer(balance, run);
    longer := NewcomerFindsRoom(balance, run, userID, roomID);
    StillWelcome(balance, s, After(balance, longer).value, TrimSpace(userID), TrimSpace(roomID),
      RoomFound(s.own.revision));
    JoinRefusedExactlyWhenSeated(balance, longer, i);
    OneMoreStep(balance, longer, JoinRoom(i));
    MovesOneHandler(balance, After(balance, longer).value, JoinRoom(i));
    longer := longer + [JoinRoom(i)];
    session := PhaseOf(After(balance, longer).value, i).session;
  }

  /** A handshake that nothing disturbs succeeds: if the gateway owns the room, accepts connections and
      has no seated handler of the same user in it, the connection ends up registered and live, at the
      current revision. */
  lemma UndisturbedHandshakeGoesLive(balance: Ownership.Balancer, run: seq<Action>, userID: string, roomID: string)
    returns (longer: seq<Action>)
    requires After(balance, run).Some? && !Blank(userID) && !Blank(roomID)
    requires Welcome(balance, After(balance, run).value, TrimSpace(userID), TrimSpace(roomID))
    ensures After(balance, longer).Some?
    ensures var s, t, i := After(balance, run).value, After(balance, longer).value, Newcomer(balance, run);
            && |t.handlers| == i + 1 && t.handlers[i].user == TrimSpace(userID) && t.handlers[i].room == TrimSpace(roomID)
            && PhaseOf(t, i).Live? && PhaseOf(t, i).h == s.own.revision && i in t.table.items
  {
    var i, session := Newcomer(balance, run), 0;
    longer, session := NewcomerJoins(balance, run, userID, roomID);
    OneMoreStep(balance, longer, Register(i));
    longer := longer + [Register(i)];
    OneMoreStep(balance, longer, RecheckRevision(i));
    longer := longer + [RecheckRevision(i)];
    OneMoreStep(balance, longer, RecheckOwner(i));
    longer := longer + [RecheckOwner(i)];
  }

  /** The `i`-th session of the room is closed and has been given just these messages. */
  predicate ClosedWith(rooms: map<string, Room.State>, room: string, i: nat, given: seq<Room.Message>) {
    && room in rooms && i < |rooms[room].sessions|
    && !rooms[room].sessions[i].open && rooms[room].sessions[i].Delivered() == given
  }

  lemma InRoomKeepsClosed(s: State, target: string, op: Room.Op, room: string, i: nat, given: seq<Room.Message>)
    requires RoomsValid(s.rooms) && target in s.rooms && ClosedWith(s.rooms, room, i, given)
    ensures ClosedWith(InRoom(s, target, op).rooms, room, i, given)
  {
    if target == room {
      Room.ClosedQueuesStayUntouched(s.rooms[room], op, i);
    }
  }

  /** Over whole runs of many handlers no queue is closed twice or written after it was closed: whatever
      happens next, a closed session stays closed and is given nothing more. */
  lemma ClosedQueuesStayClosed(balance: Ownership.Balancer, run: seq<Action>, a: Action,
                               room: string, i: nat, given: seq<Room.Message>)
    requires After(balance, run).Some? && Enabled(After(balance, run).value, a)
    requires ClosedWith(After(balance, run).value.rooms, room, i, given)
    ensures ClosedWith(Apply(balance, After(balance, run).value, a).rooms, room, i, given)
  {
    MembersAreSeatedHandlers(balance, run);
    var s := After(balance, run).value;
    match a
    case JoinRoom(k) => InRoomKeepsClosed(s, s.handlers[k].room, Room.Join(s.handlers[k].user), room, i, given);
    case LeaveRoom(k) => InRoomKeepsClosed(s, s.handlers[k].room, Room.Leave(s.handlers[k].user), room, i, given);
    case Broadcast(roomID, content) => InRoomKeepsClosed(s, TrimSpace(roomID), Room.Publish(content), room, i, given);
    case Receive(k) => InRoomKeepsClosed(s, s.handlers[k].room, Room.Receive(PhaseOf(s, k).session), room, i, given);
    case _ =>
  }

  /** A leave always succeeds and closes the leaver's own queue, and no other. */
  lemma LeaveClosesOwnQueue(balance: Ownership.Balancer, run: seq<Action>, i: nat)
    requires After(balance, run).Some? && Enabled(After(balance, run).value, LeaveRoom(i))
    ensures var s := After(balance, run).value;
            var before := s.rooms[s.handlers[i].room];
            var after := Apply(balance, s, LeaveRoom(i)).rooms[s.handlers[i].room];
            var own := PhaseOf(s, i).session;
            && Room.TryLeave(before, s.handlers[i].user) == Ok(after)
            && own < |before.sessions| == |after.sessions|
            && before.sessions[own].open && !after.sessions[own].open
            && forall k :: 0 <= k < |before.sessions| && k != own ==> after.sessions[k] == before.sessions[k]
  {
    MembersAreSeatedHandlers(balance, run);
  }
}
