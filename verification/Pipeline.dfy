/** From the in-memory bus to the rooms (internal/bus/inmemory.go, internal/httpserver/messagebus.go,
    internal/room/room.go): publishers, the one consumer with its broadcast handler, the restarting
    supervisor and the clients of all rooms, whose steps interleave freely. */
module Pipeline {
  import opened GoStrings
  import opened Message
  import Room
  import opened Sequences
  import opened Wrappers

  /** What the handler did with a message: broadcast it, found its room empty, or returned an error. */
  datatype Fate = Delivered | NobodyThere | Failed

  datatype Handled = Handled(message: Danmaku, fate: Fate)

  /** `Stopped` means that no call to Consume is active; a second call while one is active returns an
      error at once and changes nothing. */
  datatype Consumer = Stopped | Waiting | Received(message: Danmaku) | RoomReady(message: Danmaku)

  /** The last two fields are history: what was enqueued, and what the handler has finished. */
  datatype State = State(
    queue: seq<Danmaku>,
    consumer: Consumer,
    rooms: map<string, Room.State>,
    published: seq<Danmaku>,
    handled: seq<Handled>)

  const INITIAL := State([], Stopped, map[], [], [])

  datatype Action =
    | Publish(message: Danmaku)
    | Consume
    | Take
    | FindRoom
    | Broadcast
    | Cancel
    | CreateRoom(roomID: string)
    | Call(room: string, op: Room.Op)

  predicate Enabled(capacity: nat, s: State, a: Action) {
    match a
    case Publish(_) => |s.queue| < capacity
    case Consume => s.consumer.Stopped?
    case Take => s.consumer.Waiting? && s.queue != []
    case FindRoom => s.consumer.Received?
    case Broadcast => s.consumer.RoomReady? && TrimSpace(s.consumer.message.roomID) in s.rooms
    case Cancel => s.consumer.Waiting?
    case CreateRoom(roomID) => TrimSpace(roomID) != ""
    case Call(room, op) => room in s.rooms && !op.Publish?
  }

  function GetOrCreate(rooms: map<string, Room.State>, room: string): map<string, Room.State> {
    if room in rooms then rooms else rooms[room := Room.EMPTY]
  }

  /** The handler is done with `m`; after an error Consume returns. */
  function Finish(s: State, m: Danmaku, fate: Fate): State {
    s.(consumer := if fate.Failed? then Stopped else Waiting, handled := s.handled + [Handled(m, fate)])
  }

  function Apply(capacity: nat, s: State, a: Action): State
    requires Enabled(capacity, s, a)
  {
    match a
    case Publish(m) => s.(queue := s.queue + [m], published := s.published + [m])
    case Consume => s.(consumer := Waiting)
    case Take => s.(queue := s.queue[1..], consumer := Received(s.queue[0]))
    case FindRoom =>
      var m := s.consumer.message;
      var room := TrimSpace(m.roomID);
      if room == "" then Finish(s, m, Failed)
      else s.(rooms := GetOrCreate(s.rooms, room), consumer := RoomReady(m))
    case Broadcast =>
      var m := s.consumer.message;
      var room := TrimSpace(m.roomID);
      var published := Room.TryPublish(s.rooms[room], m.content);
      if published.Ok? then Finish(s.(rooms := s.rooms[room := published.value.0]), m, Delivered)
      else Finish(s, m, if published.error.NoClient? then NobodyThere else Failed)
    case Cancel => s.(consumer := Stopped)
    case CreateRoom(roomID) => s.(rooms := GetOrCreate(s.rooms, TrimSpace(roomID)))
    case Call(room, op) => s.(rooms := s.rooms[room := Room.Apply(s.rooms[room], op)])
  }

  /** The state after a run, if every step of it was possible. */
  function After(capacity: nat, run: seq<Action>): Option<State> {
    if run == [] then Some(INITIAL)
    else
      var s := After(capacity, Init(run));
      if s.Some? && Enabled(capacity, s.value, Last(run)) then Some(Apply(capacity, s.value, Last(run))) else None
  }

  // ---------------------------------------------------------------------------------------------
  // Nothing is lost, duplicated or reordered
  // ---------------------------------------------------------------------------------------------

  function Messages(handled: seq<Handled>): (r: seq<Danmaku>)
    ensures |r| == |handled|
  {
    if handled == [] then [] else Messages(Init(handled)) + [Last(handled).message]
  }

  function InHand(consumer: Consumer): seq<Danmaku> {
    if consumer.Received? || consumer.RoomReady? then [consumer.message] else []
  }

  ghost predicate Conserved(capacity: nat, s: State) {
    s.published == Messages(s.handled) + InHand(s.consumer) + s.queue && |s.queue| <= capacity
  }

  lemma MessagesOneMore(handled: seq<Handled>, h: Handled)
    ensures Messages(handled + [h]) == Messages(handled) + [h.message]
  {
    assert Init(handled + [h]) == handled;
  }

  lemma FinishStaysConserved(capacity: nat, s: State, m: Danmaku, fate: Fate)
    requires Conserved(capacity, s) && InHand(s.consumer) == [m]
    ensures Conserved(capacity, Finish(s, m, fate))
  {
    MessagesOneMore(s.handled, Handled(m, fate));
  }

  lemma TakeStaysConserved(capacity: nat, s: State)
    requires Conserved(capacity, s) && Enabled(capacity, s, Take)
    ensures Conserved(capacity, Apply(capacity, s, Take))
  {
    assert s.queue == [s.queue[0]] + s.queue[1..];
  }

  lemma HandlerStaysConserved(capacity: nat, s: State, a: Action)
    requires Conserved(capacity, s) && Enabled(capacity, s, a) && (a.FindRoom? || a.Broadcast?)
    ensures Conserved(capacity, Apply(capacity, s, a))
  {
    var s' := Apply(capacity, s, a);
    if s'.handled != s.handled {
      var m, fate := s.consumer.message, if a.FindRoom? then Failed else Last(s'.handled).fate;
      FinishStaysConserved(capacity, s, m, fate);
      assert s'.handled == Finish(s, m, fate).handled;
    }
  }

  lemma StaysConserved(capacity: nat, s: State, a: Action)
    requires Conserved(capacity, s) && Enabled(capacity, s, a)
    ensures Conserved(capacity, Apply(capacity, s, a))
  {
    match a
    case Take => TakeStaysConserved(capacity, s);
    case FindRoom => HandlerStaysConserved(capacity, s, a);
    case Broadcast => HandlerStaysConserved(capacity, s, a);
    case Publish(m) => assert Messages(s.handled) + InHand(s.consumer) + (s.queue + [m]) == s.published + [m];
    case _ =>
  }

  // ---------------------------------------------------------------------------------------------
  // The handler fails only on messages that lack a room or a content
  // ---------------------------------------------------------------------------------------------

  /** Has the message what the handler needs? Validated messages have. */
  predicate Deliverable(m: Danmaku) {
    TrimSpace(m.roomID) != "" && TrimSpace(m.content) != ""
  }

  ghost predicate FailsRightly(h: Handled) {
    h.fate.Failed? <==> !Deliverable(h.message)
  }

  ghost predicate Blameless(s: State) {
    && (forall k :: 0 <= k < |s.handled| ==> FailsRightly(s.handled[k]))
    && (s.consumer.RoomReady? ==> TrimSpace(s.consumer.message.roomID) in s.rooms)
    && "" !in s.rooms
  }

  lemma StaysBlameless(capacity: nat, s: State, a: Action)
    requires Blameless(s) && Enabled(capacity, s, a)
    ensures Blameless(Apply(capacity, s, a))
  {
  }

  // ---------------------------------------------------------------------------------------------
  // Each room's log
  // ---------------------------------------------------------------------------------------------

  function Contents(log: seq<Room.Message>): (r: seq<string>)
    ensures |r| == |log|
    ensures forall i :: 0 <= i < |log| ==> r[i] == log[i].content
  {
    if log == [] then [] else Contents(Init(log)) + [Last(log).content]
  }

  predicate ReachesRoom(h: Handled, room: string) {
    h.fate.Delivered? && TrimSpace(h.message.roomID) == room
  }

  /** The texts of the handled messages of one room that did not find it empty, in handling order. */
  function BroadcastIn(handled: seq<Handled>, room: string): seq<string> {
    if handled == [] then []
    else
      var before := BroadcastIn(Init(handled), room);
      if ReachesRoom(Last(handled), room) then before + [Last(handled).message.content] else before
  }

  function LogOf(rooms: map<string, Room.State>, room: string): seq<Room.Message> {
    if room in rooms then rooms[room].log else []
  }

  ghost predicate Logged(s: State) {
    && (forall room :: room in s.rooms ==> Room.Valid(s.rooms[room]))
    && (forall room :: Contents(LogOf(s.rooms, room)) == BroadcastIn(s.handled, room))
  }

  lemma HandledOneMore(handled: seq<Handled>, h: Handled, room: string)
    ensures BroadcastIn(handled + [h], room) ==
            if ReachesRoom(h, room) then BroadcastIn(handled, room) + [h.message.content] else BroadcastIn(handled, room)
  {
    assert Init(handled + [h]) == handled;
  }

  /** One room's log after the handler has finished with a message. */
  lemma LogAfterBroadcast(before: Room.State, handled: seq<Handled>, m: Danmaku, room: string)
    requires Contents(before.log) == BroadcastIn(handled, room) && TrimSpace(m.roomID) == room
    requires Room.TryPublish(before, m.content).Ok?
    ensures Contents(Room.TryPublish(before, m.content).value.0.log) ==
            BroadcastIn(handled + [Handled(m, Delivered)], room)
  {
    HandledOneMore(handled, Handled(m, Delivered), room);
    assert Init(Room.TryPublish(before, m.content).value.0.log) == before.log;
  }

  lemma BroadcastStaysLogged(capacity: nat, s: State)
    requires Logged(s) && Enabled(capacity, s, Broadcast)
    ensures Logged(Apply(capacity, s, Broadcast))
  {
    var s', m := Apply(capacity, s, Broadcast), s.consumer.message;
    var target := TrimSpace(m.roomID);
    Room.ApplyStaysValid(s.rooms[target], Room.Publish(m.content));
    forall room
      ensures Contents(LogOf(s'.rooms, room)) == BroadcastIn(s'.handled, room)
    {
      assert Contents(LogOf(s.rooms, room)) == BroadcastIn(s.handled, room);
      if room == target && Room.TryPublish(s.rooms[room], m.content).Ok? {
        LogAfterBroadcast(s.rooms[room], s.handled, m, room);
      } else {
        HandledOneMore(s.handled, Last(s'.handled), room);
      }
    }
  }

  lemma CallStaysLogged(capacity: nat, s: State, room: string, op: Room.Op)
    requires Logged(s) && Enabled(capacity, s, Call(room, op))
    ensures Logged(Apply(capacity, s, Call(room, op)))
  {
    var s' := Apply(capacity, s, Call(room, op));
    Room.ApplyStaysValid(s.rooms[room], op);
    assert Room.Apply(s.rooms[room], op).log == s.rooms[room].log;
    forall r
      ensures LogOf(s'.rooms, r) == LogOf(s.rooms, r)
    {
    }
  }

  lemma OtherStepKeepsLogs(capacity: nat, s: State, a: Action, room: string)
    requires Enabled(capacity, s, a) && !a.Broadcast? && !a.Call?
    ensures var s' := Apply(capacity, s, a);
            LogOf(s'.rooms, room) == LogOf(s.rooms, room) && BroadcastIn(s'.handled, room) == BroadcastIn(s.handled, room)
  {
    var s' := Apply(capacity, s, a);
    if |s'.handled| > |s.handled| {
      HandledOneMore(s.handled, Last(s'.handled), room);
    }
  }

  lemma OtherStepStaysLogged(capacity: nat, s: State, a: Action)
    requires Logged(s) && Enabled(capacity, s, a) && !a.Broadcast? && !a.Call?
    ensures Logged(Apply(capacity, s, a))
  {
    var s' := Apply(capacity, s, a);
    forall room
      ensures Contents(LogOf(s'.rooms, room)) == BroadcastIn(s'.handled, room)
    {
      OtherStepKeepsLogs(capacity, s, a, room);
      assert Contents(LogOf(s.rooms, room)) == BroadcastIn(s.handled, room);
    }
  }

  lemma StaysLogged(capacity: nat, s: State, a: Action)
    requires Logged(s) && Enabled(capacity, s, a)
    ensures Logged(Apply(capacity, s, a))
  {
    match a
    case Broadcast => BroadcastStaysLogged(capacity, s);
    case Call(room, op) => CallStaysLogged(capacity, s, room, op);
    case _ => OtherStepStaysLogged(capacity, s, a);
  }

  lemma {:induction false} RunsStaySound(capacity: nat, run: seq<Action>)
    requires After(capacity, run).Some?
    ensures var s := After(capacity, run).value; Conserved(capacity, s) && Blameless(s) && Logged(s)
  {
    if run == [] {
    } else {
      RunsStaySound(capacity, Init(run));
      var s := After(capacity, Init(run)).value;
      StaysConserved(capacity, s, Last(run));
      StaysBlameless(capacity, s, Last(run));
      StaysLogged(capacity, s, Last(run));
    }
  }

  /** End to end, for any run: handled, in hand and queued are the published messages in the order of
      publication; each room's log holds, numbered 1, 2, 3, ..., exactly the handled messages for
      that trimmed room ID, in that order, except those that found the room empty; and the handler
      fails exactly on messages without a room or a content. */
  lemma EndToEndOrder(capacity: nat, run: seq<Action>, room: string)
    requires After(capacity, run).Some?
    ensures var s := After(capacity, run).value;
            && s.published == Messages(s.handled) + InHand(s.consumer) + s.queue
            && |s.handled| + |InHand(s.consumer)| + |s.queue| == |s.published| && |s.queue| <= capacity
            && (room in s.rooms ==> forall i :: 0 <= i < |s.rooms[room].log| ==> s.rooms[room].log[i].sequence == i + 1)
            && Contents(LogOf(s.rooms, room)) == BroadcastIn(s.handled, room)
            && (forall k :: 0 <= k < |s.handled| ==> FailsRightly(s.handled[k]))
  {
    RunsStaySound(capacity, run);
  }

  lemma {:induction false} HandledWasPublished(handled: seq<Handled>, k: nat)
    requires k < |handled|
    ensures Messages(handled)[k] == handled[k].message
  {
    if k < |handled| - 1 {
      HandledWasPublished(Init(handled), k);
    }
  }

  /** When only validated messages are published, as the gateway makes sure, the handler never fails:
      every handled message is in its room's log or found the room empty. */
  lemma ValidMessagesNeverFail(capacity: nat, run: seq<Action>, k: nat)
    requires After(capacity, run).Some? && k < |After(capacity, run).value.handled|
    requires forall i :: 0 <= i < |After(capacity, run).value.published| ==>
               Validate(After(capacity, run).value.published[i]).Pass?
    ensures !After(capacity, run).value.handled[k].fate.Failed?
  {
    RunsStaySound(capacity, run);
    var s := After(capacity, run).value;
    HandledWasPublished(s.handled, k);
    assert s.published[k] == s.handled[k].message;
  }

  /** A broadcast reports an empty room exactly when the room has no client at that moment. */
  lemma NobodyThereMeansEmpty(capacity: nat, s: State)
    requires Enabled(capacity, s, Broadcast) && Deliverable(s.consumer.message)
    ensures var s' := Apply(capacity, s, Broadcast);
            && Last(s'.handled).message == s.consumer.message
            && (Last(s'.handled).fate.NobodyThere? <==> s.rooms[TrimSpace(s.consumer.message.roomID)].clients == map[])
  {
  }
}
