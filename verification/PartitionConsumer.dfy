/** Consumption of one partition across consumer-group generations, after internal/bus/kafka.go and
    the restarting supervisor of internal/httpserver/messagebus.go.

    The group coordinator hands out numbered generations, at most one session per generation reads
    the partition, and only a session of the current generation can commit. A session whose
    generation has passed may go on fetching and handling for a while.
  */
module PartitionConsumer {
  import opened Message
  import opened Sequences
  import opened Wrappers

  /** What the consumer finds at an offset: bytes that are not JSON, a message that misses a required
      field, or a message to handle. */
  datatype Entry = Malformed | Invalid(message: Danmaku) | Good(message: Danmaku)

  /** Entries no retry can make valid. */
  predicate Poison(e: Entry) {
    !e.Good?
  }

  /** The entry for a decoded value; None stands for bytes that are not JSON. */
  function Classify(decoded: Option<Danmaku>): Entry {
    if decoded.None? then Malformed
    else if Validate(decoded.value).Fail? then Invalid(decoded.value)
    else Good(decoded.value)
  }

  /** `pos` is the offset being fetched, or fetched and not yet committed. */
  datatype Session = Fetching(pos: nat) | Skipping(pos: nat) | Handled(pos: nat) | Ended

  /** A handler call and whether it succeeded. */
  datatype Call = Call(offset: nat, ok: bool)

  /** The last two fields are history: all handler calls, and the number of sessions that ended
      between a successful handler call and its commit. */
  datatype State = State(
    log: seq<Entry>,
    committed: nat,
    generation: nat,
    sessions: map<nat, Session>,
    calls: seq<Call>,
    stranded: nat)

  const INITIAL := State([], 0, 0, map[], [], 0)

  /** A commit takes effect and is confirmed; takes effect but the answer is lost; or has no effect. */
  datatype CommitResult = Applied | Lost | Rejected

  /** `g` names the session by its generation. */
  datatype Action =
    | Append(decoded: Option<Danmaku>)
    | NewGeneration
    | Start(g: nat)
    | Skip(g: nat)
    | Handle(g: nat, ok: bool)
    | Commit(g: nat, result: CommitResult)
    | Stop(g: nat)

  predicate Ready(s: State, g: nat) {
    g in s.sessions && s.sessions[g].Fetching? && s.sessions[g].pos < |s.log|
  }

  predicate Enabled(s: State, a: Action) {
    match a
    case Append(_) => true
    case NewGeneration => true
    case Start(g) => 1 <= g <= s.generation && g !in s.sessions
    case Skip(g) => Ready(s, g) && Poison(s.log[s.sessions[g].pos])
    case Handle(g, ok) => Ready(s, g) && !Poison(s.log[s.sessions[g].pos])
    case Commit(g, result) =>
      && g in s.sessions && (s.sessions[g].Skipping? || s.sessions[g].Handled?)
      && (g != s.generation ==> result.Rejected?)
    case Stop(g) => g in s.sessions && !s.sessions[g].Ended?
  }

  function Apply(s: State, a: Action): State
    requires Enabled(s, a)
  {
    match a
    case Append(decoded) => s.(log := s.log + [Classify(decoded)])
    case NewGeneration => s.(generation := s.generation + 1)
    case Start(g) => s.(sessions := s.sessions[g := Fetching(s.committed)])
    case Skip(g) => s.(sessions := s.sessions[g := Skipping(s.sessions[g].pos)])
    case Handle(g, ok) =>
      var pos := s.sessions[g].pos;
      s.(sessions := s.sessions[g := if ok then Handled(pos) else Ended], calls := s.calls + [Call(pos, ok)])
    case Commit(g, result) =>
      var pos := s.sessions[g].pos;
      s.(sessions := s.sessions[g := if result.Applied? then Fetching(pos + 1) else Ended],
         committed := if result.Rejected? then s.committed else pos + 1,
         stranded := s.stranded + if result.Rejected? && s.sessions[g].Handled? then 1 else 0)
    case Stop(g) =>
      s.(sessions := s.sessions[g := Ended], stranded := s.stranded + if s.sessions[g].Handled? then 1 else 0)
  }

  /** The state after a run, if every step of it was possible. */
  function After(run: seq<Action>): Option<State> {
    if run == [] then Some(INITIAL)
    else
      var s := After(Init(run));
      if s.Some? && Enabled(s.value, Last(run)) then Some(Apply(s.value, Last(run))) else None
  }

  // ---------------------------------------------------------------------------------------------
  // At least once, in order
  // ---------------------------------------------------------------------------------------------

  predicate HandledOk(calls: seq<Call>, offset: nat) {
    Call(offset, true) in calls
  }

  /** Everything below `pos` was handled successfully or can never be. */
  ghost predicate Settled(log: seq<Entry>, calls: seq<Call>, pos: nat) {
    pos <= |log| && forall o :: 0 <= o < pos ==> Poison(log[o]) || HandledOk(calls, o)
  }

  /** Where a session stands: it has settled what is below it, and it stands at the committed offset
      as long as its generation is the current one. */
  ghost predicate Sound(s: State, g: nat)
    requires g in s.sessions
  {
    !s.sessions[g].Ended? ==>
      var pos := s.sessions[g].pos;
      && Settled(s.log, s.calls, pos)
      && (g == s.generation ==> pos == s.committed)
      && (s.sessions[g].Skipping? ==> pos < |s.log| && Poison(s.log[pos]))
      && (s.sessions[g].Handled? ==> pos < |s.log| && !Poison(s.log[pos]) && HandledOk(s.calls, pos))
  }

  /** Every handler call came after all valid entries before it had been handled. */
  ghost predicate Ordered(log: seq<Entry>, calls: seq<Call>) {
    forall k :: 0 <= k < |calls| ==>
      calls[k].offset < |log| && !Poison(log[calls[k].offset]) && Settled(log, calls[..k], calls[k].offset)
  }

  ghost predicate Safe(s: State) {
    && Settled(s.log, s.calls, s.committed)
    && Ordered(s.log, s.calls)
    && forall g :: g in s.sessions ==> g <= s.generation && Sound(s, g)
  }

  lemma CallStaysOrdered(log: seq<Entry>, calls: seq<Call>, c: Call)
    requires Ordered(log, calls) && c.offset < |log| && !Poison(log[c.offset]) && Settled(log, calls, c.offset)
    ensures Ordered(log, calls + [c])
  {
    forall k | 0 <= k < |calls|
      ensures (calls + [c])[..k] == calls[..k]
    {
    }
    assert (calls + [c])[..|calls|] == calls;
  }

  lemma StaysSafe(s: State, a: Action)
    requires Safe(s) && Enabled(s, a)
    ensures Safe(Apply(s, a))
  {
    match a
    case Handle(g, ok) => CallStaysOrdered(s.log, s.calls, Call(s.sessions[g].pos, ok));
    case _ =>
  }

  lemma {:induction false} RunsStaySafe(run: seq<Action>)
    requires After(run).Some?
    ensures Safe(After(run).value)
  {
    if run != [] {
      RunsStaySafe(Init(run));
      StaysSafe(After(Init(run)).value, Last(run));
    }
  }

  /** What was appended to the partition in a run. */
  function Appended(run: seq<Action>): seq<Option<Danmaku>> {
    if run == [] then []
    else if Last(run).Append? then Appended(Init(run)) + [Last(run).decoded]
    else Appended(Init(run))
  }

  /** Is it JSON with all required fields? */
  predicate Wanted(decoded: Option<Danmaku>) {
    decoded.Some? && Validate(decoded.value).Pass?
  }

  /** The entry stands for what was appended. */
  ghost predicate StandsFor(e: Entry, decoded: Option<Danmaku>) {
    && (Wanted(decoded) <==> e.Good?) && (decoded.None? <==> e.Malformed?)
    && (decoded.Some? ==> !e.Malformed? && e.message == decoded.value)
  }

  lemma ClassifyIsRight(decoded: Option<Danmaku>)
    ensures StandsFor(Classify(decoded), decoded)
  {
  }

  lemma {:induction false} LogIsWhatWasAppended(run: seq<Action>)
    requires After(run).Some?
    ensures |After(run).value.log| == |Appended(run)|
    ensures forall o :: 0 <= o < |Appended(run)| ==> StandsFor(After(run).value.log[o], Appended(run)[o])
  {
    if run != [] {
      LogIsWhatWasAppended(Init(run));
      if Last(run).Append? {
        ClassifyIsRight(Last(run).decoded);
      }
    }
  }

  /** The handler is called only with messages that are JSON and pass validation. */
  lemma OnlyValidMessagesAreHandled(run: seq<Action>, k: nat)
    requires After(run).Some? && k < |After(run).value.calls|
    ensures var offset := After(run).value.calls[k].offset;
            offset < |Appended(run)| && Wanted(Appended(run)[offset])
  {
    RunsStaySafe(run);
    LogIsWhatWasAppended(run);
    var offset := After(run).value.calls[k].offset;
    assert StandsFor(After(run).value.log[offset], Appended(run)[offset]);
  }

  /** Every offset below the committed one is permanently invalid or was handled successfully. */
  lemma AtLeastOnce(run: seq<Action>, offset: nat)
    requires After(run).Some? && offset < After(run).value.committed
    ensures offset < |Appended(run)| && (Wanted(Appended(run)[offset]) ==> HandledOk(After(run).value.calls, offset))
  {
    RunsStaySafe(run);
    LogIsWhatWasAppended(run);
    assert StandsFor(After(run).value.log[offset], Appended(run)[offset]);
  }

  /** First deliveries follow log order: when an entry is delivered, every earlier valid entry has
      been delivered before. */
  lemma FirstDeliveriesInOrder(run: seq<Action>, earlier: nat, later: nat, k: nat)
    requires After(run).Some? && earlier < later && earlier < |Appended(run)| && Wanted(Appended(run)[earlier])
    requires k < |After(run).value.calls| && After(run).value.calls[k].offset == later
    ensures var calls := After(run).value.calls;
            exists j :: 0 <= j < k && calls[j] == Call(earlier, true)
  {
    RunsStaySafe(run);
    LogIsWhatWasAppended(run);
    var s := After(run).value;
    assert StandsFor(s.log[earlier], Appended(run)[earlier]);
    assert Settled(s.log, s.calls[..k], later);
    assert HandledOk(s.calls[..k], earlier);
    var j :| 0 <= j < k && s.calls[..k][j] == Call(earlier, true);
    assert s.calls[j] == Call(earlier, true);
  }

  // ---------------------------------------------------------------------------------------------
  // How many times
  // ---------------------------------------------------------------------------------------------

  function ValidBelow(log: seq<Entry>, n: nat): nat
    requires n <= |log|
  {
    if n == 0 then 0 else ValidBelow(log, n - 1) + if Poison(log[n - 1]) then 0 else 1
  }

  function Successes(calls: seq<Call>): nat {
    if calls == [] then 0 else Successes(Init(calls)) + if Last(calls).ok then 1 else 0
  }

  /** Sessions that have handled an entry and not yet got an answer to its commit. */
  ghost function InFlight(sessions: map<nat, Session>): set<nat> {
    set g | g in sessions && sessions[g].Handled?
  }

  lemma InFlightAfter(sessions: map<nat, Session>, g: nat, next: Session)
    requires g in sessions
    ensures |InFlight(sessions[g := next])| + (if sessions[g].Handled? then 1 else 0) ==
            |InFlight(sessions)| + (if next.Handled? then 1 else 0)
  {
    var rest := InFlight(sessions) - {g};
    assert InFlight(sessions) == rest + if sessions[g].Handled? then {g} else {};
    assert InFlight(sessions[g := next]) == rest + if next.Handled? then {g} else {};
  }

  lemma {:induction false} ValidBelowLonger(log: seq<Entry>, e: Entry, n: nat)
    requires n <= |log|
    ensures ValidBelow(log + [e], n) == ValidBelow(log, n)
  {
    if n > 0 {
      ValidBelowLonger(log, e, n - 1);
    }
  }

  ghost predicate Counted(s: State) {
    && s.committed <= |s.log|
    && Successes(s.calls) == ValidBelow(s.log, s.committed) + s.stranded + |InFlight(s.sessions)|
  }

  lemma HandleStaysCounted(s: State, g: nat, ok: bool)
    requires Counted(s) && Enabled(s, Handle(g, ok))
    ensures Counted(Apply(s, Handle(g, ok)))
  {
    InFlightAfter(s.sessions, g, if ok then Handled(s.sessions[g].pos) else Ended);
    assert Init(s.calls + [Call(s.sessions[g].pos, ok)]) == s.calls;
  }

  /** A commit that takes effect stands at the committed offset and moves it past one entry. */
  lemma CommitStaysCounted(s: State, g: nat, result: CommitResult)
    requires Counted(s) && Enabled(s, Commit(g, result))
    requires !result.Rejected? ==>
               var pos := s.sessions[g].pos;
               pos == s.committed < |s.log| && (s.sessions[g].Skipping? <==> Poison(s.log[pos]))
    ensures Counted(Apply(s, Commit(g, result)))
  {
    InFlightAfter(s.sessions, g, if result.Applied? then Fetching(s.sessions[g].pos + 1) else Ended);
  }

  lemma OtherStepStaysCounted(s: State, a: Action)
    requires Counted(s) && Enabled(s, a) && !a.Handle? && !a.Commit?
    ensures Counted(Apply(s, a))
  {
    match a
    case Append(decoded) => ValidBelowLonger(s.log, Classify(decoded), s.committed);
    case NewGeneration =>
    case Start(g) => assert InFlight(s.sessions[g := Fetching(s.committed)]) == InFlight(s.sessions);
    case Skip(g) => InFlightAfter(s.sessions, g, Skipping(s.sessions[g].pos));
    case Stop(g) => InFlightAfter(s.sessions, g, Ended);
  }

  /** Successful handler calls exceed the valid entries below the committed offset by exactly the
      sessions that ended between handling and commit, plus those still waiting for the answer. */
  lemma {:induction false} HandledCount(run: seq<Action>)
    requires After(run).Some?
    ensures Counted(After(run).value)
  {
    if run == [] {
      assert InFlight(map[]) == {};
    } else {
      HandledCount(Init(run));
      RunsStaySafe(Init(run));
      var s := After(Init(run)).value;
      match Last(run)
      case Handle(g, ok) => HandleStaysCounted(s, g, ok);
      case Commit(g, result) =>
        assert Sound(s, g);
        CommitStaysCounted(s, g, result);
      case _ => OtherStepStaysCounted(s, Last(run));
    }
  }

  // ---------------------------------------------------------------------------------------------
  // The imperative form: one session's loop
  // ---------------------------------------------------------------------------------------------

  /** What one turn of the loop meets: a failing fetch, or an entry with the handler's and the
      coordinator's answers. */
  datatype Turn = FetchFails | Served(handlerOk: bool, commit: CommitResult)

  /** What session `g` does in one turn with an entry. */
  function TurnSteps(poison: bool, g: nat, turn: Turn): seq<Action> {
    if turn.FetchFails? then [Stop(g)]
    else if poison then [Skip(g), Commit(g, turn.commit)]
    else if turn.handlerOk then [Handle(g, true), Commit(g, turn.commit)]
    else [Handle(g, false)]
  }

  predicate GoesOn(poison: bool, turn: Turn) {
    turn.Served? && (poison || turn.handlerOk) && turn.commit.Applied?
  }

  /** The trace extended by what session `g` does from offset `pos` on, as long as there are turns
      and entries. */
  function Loop(trace: seq<Action>, log: seq<Entry>, g: nat, pos: nat, turns: seq<Turn>): seq<Action>
    decreases |turns|
  {
    if turns == [] || pos >= |log| then trace
    else
      var trace' := trace + TurnSteps(Poison(log[pos]), g, turns[0]);
      if GoesOn(Poison(log[pos]), turns[0]) then Loop(trace', log, g, pos + 1, turns[1..]) else trace'
  }

  lemma OneMoreStep(run: seq<Action>, a: Action)
    requires After(run).Some? && Enabled(After(run).value, a)
    ensures After(run + [a]) == Some(Apply(After(run).value, a))
  {
    assert Init(run + [a]) == run;
  }

  /** The session may take these turns after the run: it fetches from `pos`, and unless its generation
      is the current one no commit can be accepted. */
  ghost predicate MayTake(run: seq<Action>, log: seq<Entry>, g: nat, pos: nat, turns: seq<Turn>) {
    && After(run).Some?
    && var s := After(run).value;
       && s.log == log && g in s.sessions && s.sessions[g] == Fetching(pos)
       && (g != s.generation ==> forall k :: 0 <= k < |turns| ==> Fenced(turns[k]))
  }

  predicate Fenced(turn: Turn) {
    turn.Served? ==> turn.commit.Rejected?
  }

  /** From `s` to `t` only session `g` has worked: the committed offset has moved over entries that are
      poisonous or that it has handled itself, and not at all if its generation had passed. */
  ghost predicate Advances(s: State, t: State, g: nat) {
    && t.log == s.log && t.generation == s.generation && g in t.sessions && s.calls <= t.calls
    && s.committed <= t.committed && t.committed <= |t.log|
    && (forall o :: s.committed <= o < t.committed ==> Poison(t.log[o]) || HandledOk(t.calls[|s.calls|..], o))
    && (g != s.generation ==> t.committed == s.committed)
  }

  lemma AdvancesFurther(s: State, t: State, u: State, g: nat)
    requires Advances(s, t, g) && Advances(t, u, g)
    ensures Advances(s, u, g)
  {
    assert u.calls[|s.calls|..] == t.calls[|s.calls|..] + u.calls[|t.calls|..];
  }

  /** The commit that follows the first step of a turn. */
  lemma SecondStep(s: State, g: nat, pos: nat, turn: Turn)
    requires s.committed <= |s.log| && g in s.sessions && s.sessions[g] == Fetching(pos) && pos < |s.log|
    requires if g == s.generation then pos == s.committed else Fenced(turn)
    requires turn.Served? && (Poison(s.log[pos]) || turn.handlerOk)
    ensures var first := TurnSteps(Poison(s.log[pos]), g, turn)[0];
            && Enabled(s, first) && Enabled(Apply(s, first), Commit(g, turn.commit))
            && var t := Apply(Apply(s, first), Commit(g, turn.commit));
               && Advances(s, t, g)
               && (turn.commit.Applied? ==> t.sessions[g] == Fetching(pos + 1) && t.committed == pos + 1)
  {
    var t := Apply(Apply(s, TurnSteps(Poison(s.log[pos]), g, turn)[0]), Commit(g, turn.commit));
    if !Poison(s.log[pos]) {
      assert t.calls[|s.calls|..] == [Call(pos, true)];
    }
  }

  lemma OnlyStep(s: State, g: nat, pos: nat, turn: Turn)
    requires s.committed <= |s.log| && g in s.sessions && s.sessions[g] == Fetching(pos) && pos < |s.log|
    requires turn.FetchFails? || !(Poison(s.log[pos]) || turn.handlerOk)
    ensures var step := TurnSteps(Poison(s.log[pos]), g, turn)[0];
            Enabled(s, step) && Advances(s, Apply(s, step), g)
  {
  }

  /** One turn. */
  lemma OneMoreTurn(run: seq<Action>, g: nat, pos: nat, turn: Turn)
    requires After(run).Some?
    requires MayTake(run, After(run).value.log, g, pos, [turn]) && pos < |After(run).value.log|
    ensures var s := After(run).value;
            var after := After(run + TurnSteps(Poison(s.log[pos]), g, turn));
            && after.Some? && Advances(s, after.value, g)
            && (GoesOn(Poison(s.log[pos]), turn) ==>
                  after.value.sessions[g] == Fetching(pos + 1) && after.value.committed == pos + 1)
  {
    var s := After(run).value;
    var steps := TurnSteps(Poison(s.log[pos]), g, turn);
    RunsStaySafe(run);
    assert Sound(s, g) && Fenced([turn][0]) == Fenced(turn);
    if |steps| == 2 {
      SecondStep(s, g, pos, turn);
      OneMoreStep(run, steps[0]);
      OneMoreStep(run + [steps[0]], steps[1]);
      assert run + [steps[0]] + [steps[1]] == run + steps;
    } else {
      OnlyStep(s, g, pos, turn);
      OneMoreStep(run, steps[0]);
      assert [steps[0]] == steps;
    }
  }

  /** Nothing fails. */
  ghost predicate Smooth(turns: seq<Turn>) {
    forall k :: 0 <= k < |turns| ==> turns[k] == Served(true, Applied)
  }

  lemma MayTakeTheRest(run: seq<Action>, log: seq<Entry>, g: nat, pos: nat, turns: seq<Turn>)
    requires MayTake(run, log, g, pos, turns) && turns != [] && pos < |log| && GoesOn(Poison(log[pos]), turns[0])
    ensures MayTake(run + TurnSteps(Poison(log[pos]), g, turns[0]), log, g, pos + 1, turns[1..])
    ensures After(run + TurnSteps(Poison(log[pos]), g, turns[0])).value.generation == After(run).value.generation
  {
    OneMoreTurn(run, g, pos, turns[0]);
  }

  /** What a session does in any number of turns, in the current or a passed generation, is a run of the
      machine, and moves the committed offset only over entries that are poisonous or that it handled. */
  lemma {:induction false} LoopStepsArePossible(run: seq<Action>, log: seq<Entry>, g: nat, pos: nat, turns: seq<Turn>)
    requires MayTake(run, log, g, pos, turns)
    ensures var after := After(Loop(run, log, g, pos, turns)); after.Some? && Advances(After(run).value, after.value, g)
    decreases |turns|
  {
    RunsStaySafe(run);
    if turns != [] && pos < |log| {
      var longer := run + TurnSteps(Poison(log[pos]), g, turns[0]);
      OneMoreTurn(run, g, pos, turns[0]);
      if GoesOn(Poison(log[pos]), turns[0]) {
        MayTakeTheRest(run, log, g, pos, turns);
        LoopStepsArePossible(longer, log, g, pos + 1, turns[1..]);
        AdvancesFurther(After(run).value, After(longer).value, After(Loop(run, log, g, pos, turns)).value, g);
      }
    }
  }

  lemma StandsAtCommitted(run: seq<Action>, g: nat, pos: nat)
    requires After(run).Some? && g in After(run).value.sessions && After(run).value.sessions[g] == Fetching(pos)
    requires g == After(run).value.generation
    ensures After(run).value.committed == pos <= |After(run).value.log|
  {
    RunsStaySafe(run);
    assert Sound(After(run).value, g);
  }

  /** If nothing fails, a session of the current generation gets over one entry in each turn. */
  lemma {:induction false} SmoothSessionAdvances(run: seq<Action>, log: seq<Entry>, g: nat, pos: nat, turns: seq<Turn>)
    requires MayTake(run, log, g, pos, turns) && g == After(run).value.generation && pos <= |log| && Smooth(turns)
    ensures After(Loop(run, log, g, pos, turns)).Some?
    ensures After(Loop(run, log, g, pos, turns)).value.committed == if pos + |turns| < |log| then pos + |turns| else |log|
    decreases |turns|
  {
    if turns == [] || pos >= |log| {
      StandsAtCommitted(run, g, pos);
    } else {
      MayTakeTheRest(run, log, g, pos, turns);
      SmoothSessionAdvances(run + TurnSteps(Poison(log[pos]), g, turns[0]), log, g, pos + 1, turns[1..]);
    }
  }

  /** One session of one partition, writing down its steps after a trace of what happened before. */
  method ConsumePartition(trace: seq<Action>, log: seq<Entry>, g: nat, offset: nat, turns: seq<Turn>)
    returns (extended: seq<Action>)
    ensures extended == Loop(trace, log, g, offset, turns)
    ensures MayTake(trace, log, g, offset, turns) ==>
              && After(extended).Some? && Advances(After(trace).value, After(extended).value, g)
              && (Smooth(turns) && g == After(trace).value.generation && offset <= |log| ==>
                    After(extended).value.committed == if offset + |turns| < |log| then offset + |turns| else |log|)
  {
    if MayTake(trace, log, g, offset, turns) {
      LoopStepsArePossible(trace, log, g, offset, turns);
      if Smooth(turns) && g == After(trace).value.generation && offset <= |log| {
        SmoothSessionAdvances(trace, log, g, offset, turns);
      }
    }
    extended := trace;
    var pos: nat := offset;
    for i := 0 to |turns|
      invariant Loop(trace, log, g, offset, turns) == Loop(extended, log, g, pos, turns[i..])
    {
      if pos >= |log| {
        return;
      }
      var turn := turns[i];
      assert turns[i..][0] == turn && turns[i..][1..] == turns[i + 1..];
      if turn.FetchFails? {
        return extended + [Stop(g)];
      }
      if log[pos].Malformed? || log[pos].Invalid? {
        extended := extended + [Skip(g), Commit(g, turn.commit)];
      } else {
        if !turn.handlerOk {
          return extended + [Handle(g, false)];
        }
        extended := extended + [Handle(g, true), Commit(g, turn.commit)];
      }
      if !turn.commit.Applied? {
        return;
      }
      pos := pos + 1;
    }
  }
}
