/** One chat room, after internal/room/room.go.

    `State` is a room with its history: the log of broadcast messages and every session that ever
    joined, each with what it received, what waits in its queue, and the fate of every message
    published while it was a member. `Apply` is the meaning of one call; module
    RoomObjects has the mutable objects, proved to compute it.
  */
module Room {
  import opened GoStrings
  import opened Sequences
  import opened Wrappers

  datatype Error = EmptyClientID | ClientAlreadyJoined | ClientNotFound | EmptyContent | NoClient

  datatype Message = Message(sequence: nat, content: string)

  const QUEUE_CAPACITY: nat := 1

  /** `fates[k]` says whether the `k`-th message published since the session joined was enqueued;
      `joined` is the length of the log at that moment. */
  datatype Session = Session(user: string, joined: nat, open: bool,
                             received: seq<Message>, queue: seq<Message>, fates: seq<bool>) {
    function Delivered(): seq<Message> {
      received + queue
    }

    function Drops(): nat {
      CountFalse(fates)
    }
  }

  /** `clients` maps the ID of every present client to its session. */
  datatype State = State(sequence: nat, clients: map<string, nat>, sessions: seq<Session>, log: seq<Message>)

  const EMPTY := State(0, map[], [], [])

  datatype Op = Join(user: string) | Leave(user: string) | Publish(content: string) | Receive(session: nat)

  function TryJoin(s: State, user: string): Result<State, Error> {
    if TrimSpace(user) == "" then Err(EmptyClientID)
    else if user in s.clients then Err(ClientAlreadyJoined)
    else Ok(s.(clients := s.clients[user := |s.sessions|],
               sessions := s.sessions + [Session(user, |s.log|, true, [], [], [])]))
  }

  function TryLeave(s: State, user: string): Result<State, Error> {
    if user !in s.clients then Err(ClientNotFound)
    else Ok(s.(clients := s.clients - {user}, sessions := Close(s.sessions, s.clients[user])))
  }

  function Close(sessions: seq<Session>, i: nat): seq<Session> {
    if i < |sessions| then sessions[i := sessions[i].(open := false)] else sessions
  }

  predicate Full(session: Session) {
    |session.queue| >= QUEUE_CAPACITY
  }

  /** Is the `i`-th session the present client of its user? */
  predicate Present(clients: map<string, nat>, session: Session, i: nat) {
    session.user in clients && clients[session.user] == i
  }

  function Offer(session: Session, m: Message): Session {
    if Full(session) then session.(fates := session.fates + [false])
    else session.(queue := session.queue + [m], fates := session.fates + [true])
  }

  /** The room after a successful broadcast, and the number of clients it reports as dropped. */
  function TryPublish(s: State, content: string): Result<(State, nat), Error> {
    if TrimSpace(content) == "" then Err(EmptyContent)
    else if s.clients == map[] then Err(NoClient)
    else
      var m := Message(s.sequence + 1, content);
      Ok((s.(sequence := s.sequence + 1, sessions := OfferAll(s.sessions, s.clients, m), log := s.log + [m]),
          CountFull(s.sessions, s.clients)))
  }

  function OfferIf(present: bool, session: Session, m: Message): Session {
    if present then Offer(session, m) else session
  }

  function OfferAll(sessions: seq<Session>, clients: map<string, nat>, m: Message): (r: seq<Session>)
    ensures |r| == |sessions|
  {
    seq(|sessions|, i requires 0 <= i < |sessions| => OfferIf(Present(clients, sessions[i], i), sessions[i], m))
  }

  /** How many of the present clients have a full queue. */
  function CountFull(sessions: seq<Session>, clients: map<string, nat>): nat {
    if sessions == [] then 0
    else CountFull(Init(sessions), clients) +
         if Present(clients, Last(sessions), |sessions| - 1) && Full(Last(sessions)) then 1 else 0
  }

  function TryReceive(s: State, i: nat): State {
    if i < |s.sessions| && s.sessions[i].queue != [] then
      var c := s.sessions[i];
      s.(sessions := s.sessions[i := c.(received := c.received + [c.queue[0]], queue := c.queue[1..])])
    else s
  }

  /** One call; a failing one leaves the room unchanged. */
  function Apply(s: State, op: Op): State {
    match op
    case Join(user) => var r := TryJoin(s, user); if r.Ok? then r.value else s
    case Leave(user) => var r := TryLeave(s, user); if r.Ok? then r.value else s
    case Publish(content) => var r := TryPublish(s, content); if r.Ok? then r.value.0 else s
    case Receive(i) => TryReceive(s, i)
  }

  // ---------------------------------------------------------------------------------------------
  // What every call keeps
  // ---------------------------------------------------------------------------------------------

  /** The log numbers its messages 1, 2, 3, ... without gaps. */
  ghost predicate Numbered(s: State) {
    && |s.log| == s.sequence
    && forall i :: 0 <= i < |s.log| ==> s.log[i].sequence == i + 1
  }

  /** The clients are exactly the open sessions, each under its own user. */
  ghost predicate Seated(s: State) {
    && (forall u :: u in s.clients ==>
          s.clients[u] < |s.sessions| && s.sessions[s.clients[u]].open && s.sessions[s.clients[u]].user == u)
    && (forall i :: 0 <= i < |s.sessions| && s.sessions[i].open ==>
          s.sessions[i].user in s.clients && s.clients[s.sessions[i].user] == i)
  }

  /** A session has got, in order, exactly the enqueued messages among those published since it
      joined; while it is open, that is the whole rest of the log. */
  ghost predicate Faithful(log: seq<Message>, session: Session) {
    && session.joined + |session.fates| <= |log|
    && (session.open ==> session.joined + |session.fates| == |log|)
    && |session.queue| <= QUEUE_CAPACITY
    && session.Delivered() == Kept(log[session.joined..session.joined + |session.fates|], session.fates)
  }

  ghost predicate Valid(s: State) {
    && Numbered(s)
    && Seated(s)
    && forall i :: 0 <= i < |s.sessions| ==> Faithful(s.log, s.sessions[i])
  }

  lemma OfferIsFaithful(log: seq<Message>, session: Session, m: Message)
    requires Faithful(log, session) && session.open
    ensures Faithful(log + [m], Offer(session, m))
  {
    var since := log[session.joined..];
    assert since == log[session.joined..session.joined + |session.fates|];
    assert (log + [m])[session.joined..session.joined + |session.fates| + 1] == since + [m];
    KeptOneMore(since, session.fates, m, !Full(session));
    assert Offer(session, m).Delivered() == session.Delivered() + if Full(session) then [] else [m];
  }

  lemma LongerLogIsFaithful(log: seq<Message>, session: Session, m: Message)
    requires Faithful(log, session) && !session.open
    ensures Faithful(log + [m], session)
  {
    var end := session.joined + |session.fates|;
    assert (log + [m])[session.joined..end] == log[session.joined..end];
  }

  lemma PublishStaysValid(s: State, content: string)
    requires Valid(s) && TryPublish(s, content).Ok?
    ensures Valid(TryPublish(s, content).value.0)
  {
    var s', m := TryPublish(s, content).value.0, Message(s.sequence + 1, content);
    forall i | 0 <= i < |s.sessions|
      ensures Faithful(s'.log, s'.sessions[i])
    {
      if s.sessions[i].open {
        assert s.clients[s.sessions[i].user] == i;
        OfferIsFaithful(s.log, s.sessions[i], m);
      } else {
        LongerLogIsFaithful(s.log, s.sessions[i], m);
      }
    }
  }

  lemma ReceiveStaysValid(s: State, i: nat)
    requires Valid(s)
    ensures Valid(TryReceive(s, i))
  {
    if i < |s.sessions| && s.sessions[i].queue != [] {
      var c, c' := s.sessions[i], TryReceive(s, i).sessions[i];
      assert c.queue == [c.queue[0]] + c.queue[1..];
      assert c'.Delivered() == c.Delivered();
    }
  }

  lemma JoinStaysValid(s: State, user: string)
    requires Valid(s) && TryJoin(s, user).Ok?
    ensures Valid(TryJoin(s, user).value)
  {
    assert Faithful(s.log, Session(user, |s.log|, true, [], [], []));
  }

  lemma LeaveStaysValid(s: State, user: string)
    requires Valid(s) && TryLeave(s, user).Ok?
    ensures Valid(TryLeave(s, user).value)
  {
    assert Faithful(s.log, s.sessions[s.clients[user]]);
  }

  lemma ApplyStaysValid(s: State, op: Op)
    requires Valid(s)
    ensures Valid(Apply(s, op))
  {
    match op
    case Join(user) =>
      if TryJoin(s, user).Ok? {
        JoinStaysValid(s, user);
      }
    case Leave(user) =>
      if TryLeave(s, user).Ok? {
        LeaveStaysValid(s, user);
      }
    case Publish(content) =>
      if TryPublish(s, content).Ok? {
        PublishStaysValid(s, content);
      }
    case Receive(i) => ReceiveStaysValid(s, i);
  }

  // ---------------------------------------------------------------------------------------------
  // What every call answers and does, in terms of the open sessions
  // ---------------------------------------------------------------------------------------------

  /** Has the user an open session? */
  ghost predicate IsPresent(s: State, user: string) {
    exists i :: 0 <= i < |s.sessions| && s.sessions[i].open && s.sessions[i].user == user
  }

  lemma PresentMeansListed(s: State, user: string)
    requires Valid(s)
    ensures IsPresent(s, user) <==> user in s.clients
  {
    if user in s.clients {
      assert s.sessions[s.clients[user]].open && s.sessions[s.clients[user]].user == user;
    }
  }

  /** A user can join exactly if the name is not blank and no open session has it; the join adds one
      open session with nothing in its queue. */
  lemma JoinAnswers(s: State, user: string)
    requires Valid(s)
    ensures TryJoin(s, user) == Err(EmptyClientID) <==> Blank(user)
    ensures TryJoin(s, user) == Err(ClientAlreadyJoined) <==> !Blank(user) && IsPresent(s, user)
    ensures TryJoin(s, user).Ok? <==> !Blank(user) && !IsPresent(s, user)
    ensures TryJoin(s, user).Ok? ==>
              var t := TryJoin(s, user).value;
              && t.sessions == s.sessions + [Session(user, |s.log|, true, [], [], [])]
              && t.log == s.log && t.sequence == s.sequence
  {
    TrimSpaceIsTrimmed(user);
    PresentMeansListed(s, user);
  }

  /** A leave succeeds exactly for a user with an open session, and closes that one. */
  lemma LeaveAnswers(s: State, user: string)
    requires Valid(s)
    ensures TryLeave(s, user) == Err(ClientNotFound) <==> !IsPresent(s, user)
    ensures TryLeave(s, user).Ok? <==> IsPresent(s, user)
    ensures TryLeave(s, user).Ok? ==>
              var t := TryLeave(s, user).value;
              && t.log == s.log && t.sequence == s.sequence && |t.sessions| == |s.sessions|
              && forall i :: 0 <= i < |s.sessions| ==>
                   t.sessions[i] == if s.sessions[i].open && s.sessions[i].user == user then s.sessions[i].(open := false)
                                    else s.sessions[i]
  {
    PresentMeansListed(s, user);
  }

  /** The clients that are too slow for a broadcast: open sessions with a message still in the queue. */
  ghost function Slow(sessions: seq<Session>): set<nat> {
    set i | 0 <= i < |sessions| && sessions[i].open && sessions[i].queue != []
  }

  lemma {:induction false} CountFullCountsSlow(sessions: seq<Session>, clients: map<string, nat>)
    requires forall i :: 0 <= i < |sessions| ==>
               |sessions[i].queue| <= 1 && (sessions[i].open <==> Present(clients, sessions[i], i))
    ensures CountFull(sessions, clients) == |Slow(sessions)|
  {
    if sessions == [] {
      assert Slow(sessions) == {};
    } else {
      var last := |sessions| - 1;
      CountFullCountsSlow(Init(sessions), clients);
      assert Full(Last(sessions)) <==> Last(sessions).queue != [];
      if Last(sessions).open && Last(sessions).queue != [] {
        assert Slow(sessions) == Slow(Init(sessions)) + {last};
      } else {
        assert Slow(sessions) == Slow(Init(sessions));
      }
    }
  }

  /** What a broadcast of `m` makes of one session: an open one with an empty queue gets the message, any
      other keeps what it has. */
  ghost predicate Reached(before: Session, after: Session, m: Message) {
    && after.open == before.open && after.user == before.user && after.received == before.received
    && after.queue == if before.open && before.queue == [] then [m] else before.queue
  }

  /** A broadcast succeeds exactly if the content is not blank and somebody is there. It appends one
      message with the next number to the log, puts it into every empty queue of an open session and
      reports the number of the others. */
  lemma PublishAnswers(s: State, content: string)
    requires Valid(s)
    ensures TryPublish(s, content) == Err(EmptyContent) <==> Blank(content)
    ensures TryPublish(s, content) == Err(NoClient) <==> !Blank(content) && forall user :: !IsPresent(s, user)
    ensures TryPublish(s, content).Ok? <==> !Blank(content) && exists user :: IsPresent(s, user)
    ensures TryPublish(s, content).Ok? ==>
              var (t, dropped) := TryPublish(s, content).value;
              var m := Message(|s.log| + 1, content);
              && t.log == s.log + [m] && t.sequence == |t.log| && dropped == |Slow(s.sessions)|
              && |t.sessions| == |s.sessions|
              && forall i :: 0 <= i < |s.sessions| ==> Reached(s.sessions[i], t.sessions[i], m)
  {
    TrimSpaceIsTrimmed(content);
    SomebodyMeansListed(s);
    if TryPublish(s, content).Ok? {
      PublishReaches(s, content);
    }
  }

  lemma PublishReaches(s: State, content: string)
    requires Valid(s) && TryPublish(s, content).Ok?
    ensures var (t, dropped) := TryPublish(s, content).value;
            var m := Message(|s.log| + 1, content);
            && t.log == s.log + [m] && t.sequence == |t.log| && dropped == |Slow(s.sessions)|
            && |t.sessions| == |s.sessions|
            && forall i :: 0 <= i < |s.sessions| ==> Reached(s.sessions[i], t.sessions[i], m)
  {
    SomebodyMeansListed(s);
    forall i | 0 <= i < |s.sessions|
      ensures |s.sessions[i].queue| <= 1
    {
      assert Faithful(s.log, s.sessions[i]);
    }
    CountFullCountsSlow(s.sessions, s.clients);
  }

  lemma SomebodyMeansListed(s: State)
    requires Valid(s)
    ensures s.clients == map[] <==> forall user :: !IsPresent(s, user)
    ensures forall i :: 0 <= i < |s.sessions| ==> (s.sessions[i].open <==> Present(s.clients, s.sessions[i], i))
  {
    forall user
      ensures IsPresent(s, user) <==> user in s.clients
    {
      PresentMeansListed(s, user);
    }
    if s.clients != map[] {
      var user := SomeElement(s.clients.Keys);
      assert IsPresent(s, user);
    }
  }

  /** A receive takes the oldest message of the queue. */
  lemma ReceiveAnswers(s: State, i: nat)
    requires i < |s.sessions|
    ensures var t := TryReceive(s, i);
            && t.log == s.log && t.sequence == s.sequence && t.clients == s.clients && |t.sessions| == |s.sessions|
            && (forall k :: 0 <= k < |s.sessions| && k != i ==> t.sessions[k] == s.sessions[k])
            && t.sessions[i] ==
               if s.sessions[i].queue == [] then s.sessions[i]
               else s.sessions[i].(received := s.sessions[i].received + [s.sessions[i].queue[0]],
                                   queue := s.sessions[i].queue[1..])
  {
  }

  // ---------------------------------------------------------------------------------------------
  // Whole runs
  // ---------------------------------------------------------------------------------------------

  function After(ops: seq<Op>): State {
    if ops == [] then EMPTY else Apply(After(Init(ops)), Last(ops))
  }

  /** The sum of the dropped counts reported by the broadcasts of a run. */
  function Reported(ops: seq<Op>): nat {
    if ops == [] then 0
    else Reported(Init(ops)) + Dropped(After(Init(ops)), Last(ops))
  }

  function TotalDrops(sessions: seq<Session>): nat {
    if sessions == [] then 0 else TotalDrops(Init(sessions)) + Last(sessions).Drops()
  }

  lemma {:induction false} RunsStayValid(ops: seq<Op>)
    ensures Valid(After(ops))
  {
    if ops != [] {
      RunsStayValid(Init(ops));
      ApplyStaysValid(After(Init(ops)), Last(ops));
    }
  }

  /** The message sits in the log under its own number, after the first `joined` ones. */
  predicate InLog(log: seq<Message>, joined: nat, m: Message) {
    joined < m.sequence <= |log| && log[m.sequence - 1] == m
  }

  lemma FaithfulIsOrdered(log: seq<Message>, session: Session)
    requires Faithful(log, session)
    requires forall i :: 0 <= i < |log| ==> log[i].sequence == i + 1
    ensures forall k :: 0 <= k < |session.Delivered()| ==> InLog(log, session.joined, session.Delivered()[k])
    ensures forall j, k :: 0 <= j < k < |session.Delivered()| ==>
              session.Delivered()[j].sequence < session.Delivered()[k].sequence
  {
    var since := log[session.joined..session.joined + |session.fates|];
    var given := session.Delivered();
    var positions := KeptPositions(since, session.fates);
    forall k | 0 <= k < |given|
      ensures given[k] == log[session.joined + positions[k]]
    {
      assert given[k] == since[positions[k]];
    }
  }

  /** What a session has been given is a strictly sequence-increasing part of the room's log, all of
      it published after the session joined. */
  lemma DeliveredInOrder(s: State, i: nat)
    requires Valid(s) && i < |s.sessions|
    ensures var given := s.sessions[i].Delivered();
            && (forall k :: 0 <= k < |given| ==> InLog(s.log, s.sessions[i].joined, given[k]))
            && (forall j, k :: 0 <= j < k < |given| ==> given[j].sequence < given[k].sequence)
  {
    FaithfulIsOrdered(s.log, s.sessions[i]);
  }

  /** Two clients never see different content under one sequence number. */
  lemma ClientsAgree(s: State, i: nat, j: nat, a: Message, b: Message)
    requires Valid(s) && i < |s.sessions| && j < |s.sessions|
    requires a in s.sessions[i].Delivered() && b in s.sessions[j].Delivered() && a.sequence == b.sequence
    ensures a == b
  {
    DeliveredInOrder(s, i);
    DeliveredInOrder(s, j);
  }

  /** Enqueued plus dropped is the number of messages published while the session was a member. */
  lemma NothingLostUncounted(s: State, i: nat)
    requires Valid(s) && i < |s.sessions|
    ensures var session := s.sessions[i];
            && |session.Delivered()| + session.Drops() == |session.fates|
            && (session.open ==> |session.fates| == |s.log| - session.joined)
  {
    var session := s.sessions[i];
    assert Faithful(s.log, session);
    KeptOrLeftOut(s.log[session.joined..session.joined + |session.fates|], session.fates);
  }

  /** A session's window on the log grows with every successful broadcast while it is open and is
      frozen from the moment it leaves. */
  lemma MembershipWindow(s: State, op: Op, i: nat)
    requires Valid(s) && i < |s.sessions|
    ensures var s' := Apply(s, op);
            && i < |s'.sessions| && s.log <= s'.log
            && s'.sessions[i].user == s.sessions[i].user && s'.sessions[i].joined == s.sessions[i].joined
            && (s'.sessions[i].open ==> s.sessions[i].open)
            && |s'.sessions[i].fates| - |s.sessions[i].fates| == (if s.sessions[i].open then |s'.log| - |s.log| else 0)
  {
    if s.sessions[i].open {
      assert s.clients[s.sessions[i].user] == i;
    }
  }

  lemma {:induction false} DropsOfBroadcast(sessions: seq<Session>, offered: seq<Session>,
                                            clients: map<string, nat>, m: Message)
    requires |offered| == |sessions|
    requires forall i :: 0 <= i < |sessions| ==> offered[i] == OfferIf(Present(clients, sessions[i], i), sessions[i], m)
    ensures TotalDrops(offered) == TotalDrops(sessions) + CountFull(sessions, clients)
  {
    if sessions != [] {
      DropsOfBroadcast(Init(sessions), Init(offered), clients, m);
      assert forall b :: Init(Last(sessions).fates + [b]) == Last(sessions).fates;
    }
  }

  lemma {:induction false} SameDrops(a: seq<Session>, b: seq<Session>)
    requires |a| == |b| && forall i :: 0 <= i < |a| ==> a[i].fates == b[i].fates
    ensures TotalDrops(a) == TotalDrops(b)
  {
    if a != [] {
      SameDrops(Init(a), Init(b));
    }
  }

  /** What one call reports as dropped. */
  function Dropped(s: State, op: Op): nat {
    if op.Publish? && TryPublish(s, op.content).Ok? then TryPublish(s, op.content).value.1 else 0
  }

  lemma DropsAfterPublish(s: State, content: string)
    requires TryPublish(s, content).Ok?
    ensures TotalDrops(TryPublish(s, content).value.0.sessions) ==
            TotalDrops(s.sessions) + TryPublish(s, content).value.1
  {
    DropsOfBroadcast(s.sessions, TryPublish(s, content).value.0.sessions, s.clients, Message(s.sequence + 1, content));
  }

  lemma DropsAfterOtherCall(s: State, op: Op)
    requires !op.Publish?
    ensures TotalDrops(Apply(s, op).sessions) == TotalDrops(s.sessions)
  {
    var s' := Apply(s, op);
    if |s'.sessions| > |s.sessions| {
      assert Init(s'.sessions) == s.sessions;
    } else {
      SameDrops(s.sessions, s'.sessions);
    }
  }

  lemma DropsAfterCall(s: State, op: Op)
    ensures TotalDrops(Apply(s, op).sessions) == TotalDrops(s.sessions) + Dropped(s, op)
  {
    if !op.Publish? {
      DropsAfterOtherCall(s, op);
    } else if TryPublish(s, op.content).Ok? {
      DropsAfterPublish(s, op.content);
    }
  }

  /** The dropped counts the broadcasts report sum up to the drops over all sessions. */
  lemma {:induction false} ReportedDropsAddUp(ops: seq<Op>)
    ensures Reported(ops) == TotalDrops(After(ops).sessions)
  {
    if ops != [] {
      ReportedDropsAddUp(Init(ops));
      DropsAfterCall(After(Init(ops)), Last(ops));
    }
  }

  /** No queue is closed twice and none is written after it was closed: a leave closes an open
      session, and a broadcast writes to open sessions only. */
  lemma ClosedQueuesStayUntouched(s: State, op: Op, i: nat)
    requires Valid(s) && i < |s.sessions| && !s.sessions[i].open
    ensures i < |Apply(s, op).sessions| && !Apply(s, op).sessions[i].open
    ensures Apply(s, op).sessions[i].Delivered() == s.sessions[i].Delivered()
    ensures op.Leave? && op.user in s.clients ==> s.clients[op.user] != i
    ensures !Present(s.clients, s.sessions[i], i)
  {
    if op.Receive? && op.session == i && s.sessions[i].queue != [] {
      assert s.sessions[i].queue == [s.sessions[i].queue[0]] + s.sessions[i].queue[1..];
    }
  }
}
