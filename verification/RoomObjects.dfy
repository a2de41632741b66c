/** The room, its clients and the room registry as the mutable objects of internal/room, each method
    proved to compute what module Room says the call means. */
module RoomObjects {
  import opened GoStrings
  import opened Room
  import opened Sequences
  import opened Wrappers

  /** A client's end of its bounded channel. The ghost fields are its history. */
  class Client {
    const id: string
    var queue: seq<Message>
    var closed: bool
    ghost const index: nat
    ghost const joined: nat
    ghost var received: seq<Message>
    ghost var fates: seq<bool>

    ghost function View(): Session
      reads this
    {
      Session(id, joined, !closed, received, queue, fates)
    }

    constructor (id: string, ghost index: nat, ghost joined: nat)
      ensures this.index == index && View() == Session(id, joined, true, [], [], [])
    {
      this.id, queue, closed := id, [], false;
      this.index, this.joined, received, fates := index, joined, [], [];
    }

    /** A send that does not wait: it fails when the channel is full. */
    method TrySend(m: Message) returns (sent: bool)
      requires !closed
      modifies this
      ensures View() == Offer(old(View()), m) && sent == !Full(old(View()))
    {
      sent := |queue| < QUEUE_CAPACITY;
      if sent {
        queue := queue + [m];
      }
      fates := fates + [sent];
    }

    /** Closing the channel twice would be an error of the program. */
    method Close()
      requires !closed
      modifies this`closed
      ensures View() == old(View()).(open := false)
    {
      closed := true;
    }

    /** The writer's receive; None stands for an empty channel, open or closed. */
    method Receive() returns (r: Option<Message>)
      modifies this
      ensures old(queue) == [] ==> r == None && View() == old(View())
      ensures old(queue) != [] ==>
                && r == Some(old(queue)[0]) && queue == old(queue)[1..] && received == old(received) + [r.value]
                && closed == old(closed) && fates == old(fates)
    {
      if |queue| == 0 {
        return None;
      }
      r := Some(queue[0]);
      received := received + [queue[0]];
      queue := queue[1..];
    }
  }

  class ChatRoom {
    var clients: map<string, Client>
    var sequence: nat
    /** Every client that ever joined, and the abstract room the fields stand for. */
    ghost var sessions: seq<Client>
    ghost var channels: set<Client>
    ghost var state: State

    /** The fields stand for `state`. */
    ghost predicate Valid()
      reads this, channels
    {
      && sequence == state.sequence && clients.Keys == state.clients.Keys && |sessions| == |state.sessions|
      && (forall i :: 0 <= i < |sessions| ==>
            sessions[i] in channels && sessions[i].index == i && sessions[i].View() == state.sessions[i])
      && (forall u {:trigger clients[u]} :: u in clients ==>
            var i := state.clients[u];
            i < |sessions| && sessions[i] == clients[u] && clients[u].id == u && !clients[u].closed)
    }

    constructor ()
      ensures Valid() && state == EMPTY && sessions == [] && channels == {}
    {
      clients, sequence := map[], 0;
      sessions, channels, state := [], {}, EMPTY;
    }

    method Join(clientID: string) returns (r: Result<Client, Error>)
      requires Valid()
      modifies this
      ensures Valid() && state == Apply(old(state), Op.Join(clientID)) && fresh(channels - old(channels))
      ensures var joined := TryJoin(old(state), clientID);
              if joined.Err? then r == Err(joined.error) && sessions == old(sessions)
              else r.Ok? && fresh(r.value) && sessions == old(sessions) + [r.value]
    {
      if TrimSpace(clientID) == "" {
        return Err(EmptyClientID);
      }
      if clientID in clients {
        return Err(ClientAlreadyJoined);
      }
      var client := new Client(clientID, |sessions|, |state.log|);
      clients := clients[clientID := client];
      sessions, channels := sessions + [client], channels + {client};
      state := Apply(state, Op.Join(clientID));
      return Ok(client);
    }

    /** A client of this room takes the oldest message from its channel. */
    method Receive(client: Client) returns (r: Option<Message>)
      requires Valid() && client.index < |sessions| && sessions[client.index] == client
      modifies this`state, client
      ensures Valid() && state == Apply(old(state), Op.Receive(client.index))
      ensures var queue := old(state.sessions[client.index].queue);
              r == if queue == [] then None else Some(queue[0])
    {
      r := client.Receive();
      state := Apply(state, Op.Receive(client.index));
    }

    method Leave(clientID: string) returns (r: Outcome<Error>)
      requires Valid()
      modifies this, channels
      ensures Valid() && state == Apply(old(state), Op.Leave(clientID))
      ensures sessions == old(sessions) && channels == old(channels)
      ensures r == if TryLeave(old(state), clientID).Ok? then Pass else Fail(ClientNotFound)
    {
      if clientID !in clients {
        return Fail(ClientNotFound);
      }
      var client := clients[clientID];
      clients := clients - {clientID};
      client.Close();
      state := Apply(state, Op.Leave(clientID));
      return Pass;
    }

    method Publish(content: string) returns (r: Result<nat, Error>)
      requires Valid()
      modifies this, channels
      ensures Valid() && sessions == old(sessions) && channels == old(channels)
      ensures var published := TryPublish(old(state), content);
              if published.Err? then state == old(state) && r == Err(published.error)
              else state == published.value.0 && r == Ok(published.value.1)
    {
      if TrimSpace(content) == "" {
        return Err(EmptyContent);
      }
      if clients == map[] {
        assert state.clients.Keys == {};
        return Err(NoClient);
      }
      assert state.clients.Keys != {};
      ghost var published := PublishedState(state, content);
      var dropped := PublishToClients(Message(sequence + 1, content), published);
      return Ok(dropped);
    }

    method PublishToClients(message: Message, ghost published: State) returns (dropped: nat)
      requires Valid() && message.sequence == sequence + 1
      requires published.sequence == message.sequence && published.clients == state.clients
      requires |published.sessions| == |state.sessions|
      requires forall i {:trigger published.sessions[i]} :: 0 <= i < |state.sessions| ==>
                 published.sessions[i] ==
                 OfferIf(Present(state.clients, state.sessions[i], i), state.sessions[i], message)
      modifies this`sequence, this`state, channels
      ensures Valid() && sessions == old(sessions) && channels == old(channels) && state == published
      ensures dropped == old(CountFull(state.sessions, state.clients))
    {
      dropped := OfferToAll(message);
      assert forall i :: 0 <= i < |sessions| ==> sessions[i].View() == published.sessions[i];
      sequence := message.sequence;
      state := published;
    }

    method OfferToAll(message: Message) returns (dropped: nat)
      requires Valid()
      modifies channels
      ensures unchanged(this)
      ensures dropped == CountFull(state.sessions, state.clients)
      ensures forall i {:trigger sessions[i]} :: 0 <= i < |sessions| ==>
                sessions[i].View() == OfferIf(Present(state.clients, state.sessions[i], i), state.sessions[i], message)
    {
      var order := AnyOrder(clients.Keys);
      ghost var fates;
      dropped, fates := OfferInOrder(message, order);
      CountByOrder(state.sessions, state.clients, order, fates);
    }

    method OfferInOrder(message: Message, order: seq<string>)
      returns (dropped: nat, ghost fates: seq<bool>)
      requires Valid() && Enumerates(order, clients.Keys)
      modifies channels
      ensures unchanged(this)
      ensures |fates| == |order| && dropped == CountFalse(fates)
      ensures forall k {:trigger order[k]} :: 0 <= k < |order| ==>
                order[k] in state.clients && state.clients[order[k]] < |state.sessions|
                && state.sessions[state.clients[order[k]]].user == order[k]
                && fates[k] == !Full(state.sessions[state.clients[order[k]]])
      ensures forall i {:trigger sessions[i]} :: 0 <= i < |sessions| ==>
                sessions[i].View() == OfferIf(Present(state.clients, state.sessions[i], i), state.sessions[i], message)
    {
      dropped, fates := Broadcast(message, order);
      forall i | 0 <= i < |sessions|
        ensures sessions[i].View() == OfferIf(Present(state.clients, state.sessions[i], i), state.sessions[i], message)
      {
        if Present(state.clients, state.sessions[i], i) {
          var k :| 0 <= k < |order| && order[k] == sessions[i].id;
          assert clients[order[k]] == sessions[i];
        } else {
          assert forall k :: 0 <= k < |order| ==> clients[order[k]] != sessions[i];
        }
      }
    }

    /** Offers the message to the clients in the given order, and counts the full queues. */
    method Broadcast(message: Message, order: seq<string>)
      returns (dropped: nat, ghost fates: seq<bool>)
      requires forall i :: 0 <= i < |order| ==>
                 order[i] in clients && clients[order[i]] in channels && !clients[order[i]].closed
      requires forall i, j :: 0 <= i < j < |order| ==> clients[order[i]] != clients[order[j]]
      modifies channels
      ensures unchanged(this)
      ensures |fates| == |order| && dropped == CountFalse(fates)
      ensures forall i :: 0 <= i < |order| ==>
                && clients[order[i]].View() == Offer(old(clients[order[i]].View()), message)
                && fates[i] == !Full(old(clients[order[i]].View()))
      ensures forall c :: c in channels && (forall i :: 0 <= i < |order| ==> clients[order[i]] != c) ==>
                c.View() == old(c.View())
    {
      dropped, fates := 0, [];
      for k := 0 to |order|
        invariant forall i :: 0 <= i < k ==> clients[order[i]].View() == Offer(old(clients[order[i]].View()), message)
        invariant forall i :: k <= i < |order| ==> clients[order[i]].View() == old(clients[order[i]].View())
        invariant forall c :: c in channels && (forall i :: 0 <= i < |order| ==> clients[order[i]] != c) ==>
                    c.View() == old(c.View())
        invariant |fates| == k && dropped == CountFalse(fates)
        invariant forall i :: 0 <= i < k ==> fates[i] == !Full(old(clients[order[i]].View()))
      {
        var sent := clients[order[k]].TrySend(message);
        assert Init(fates + [sent]) == fates;
        fates := fates + [sent];
        if !sent {
          dropped := dropped + 1;
        }
      }
    }
  }

  ghost predicate Enumerates(order: seq<string>, s: set<string>) {
    && (forall x :: x in s <==> x in order)
    && (forall i, j :: 0 <= i < j < |order| ==> order[i] != order[j])
  }

  /** Go iterates over a map in no particular order. */
  method AnyOrder(s: set<string>) returns (order: seq<string>)
    ensures Enumerates(order, s)
  {
    order := [];
    var remaining := s;
    while remaining != {}
      invariant remaining <= s && Enumerates(order, s - remaining)
      decreases remaining
    {
      var x := AnyElement(remaining);
      order, remaining := order + [x], remaining - {x};
    }
  }

  /** A successful broadcast, session by session. */
  lemma PublishedState(s: State, content: string) returns (s': State)
    requires TryPublish(s, content).Ok?
    ensures TryPublish(s, content).value == (s', CountFull(s.sessions, s.clients))
    ensures s'.sequence == s.sequence + 1 && s'.clients == s.clients && |s'.sessions| == |s.sessions|
    ensures forall i {:trigger s'.sessions[i]} :: 0 <= i < |s.sessions| ==>
              s'.sessions[i] ==
              OfferIf(Present(s.clients, s.sessions[i], i), s.sessions[i], Message(s.sequence + 1, content))
  {
    s' := TryPublish(s, content).value.0;
  }

  /** However the clients are enumerated, counting the full ones gives the same number. */
  lemma {:induction false} CountByOrder(all: seq<Session>, clients: map<string, nat>,
                                        order: seq<string>, fates: seq<bool>)
    requires Enumerates(order, clients.Keys) && |fates| == |order|
    requires forall k :: 0 <= k < |order| ==>
               var u := order[k];
               && u in clients && clients[u] < |all| && all[clients[u]].user == u
               && fates[k] == !Full(all[clients[u]])
    ensures CountFull(all, clients) == CountFalse(fates)
  {
    if order == [] {
      NoneFull(all);
    } else {
      var user, fewer := Last(order), clients - {Last(order)};
      forall u ensures u in fewer.Keys <==> u in Init(order) {
        assert u in order <==> u in Init(order) || u == user;
      }
      CountByOrder(all, fewer, Init(order), Init(fates));
      OneMoreFull(all, fewer, user, clients[user]);
      assert fewer[user := clients[user]] == clients;
    }
  }

  lemma {:induction false} NoneFull(all: seq<Session>)
    ensures CountFull(all, map[]) == 0
  {
    if all != [] {
      NoneFull(Init(all));
    }
  }

  lemma {:induction false} OneMoreFull(all: seq<Session>, done: map<string, nat>, user: string, i: nat)
    requires user !in done && i < |all| && all[i].user == user
    ensures CountFull(all, done[user := i]) == CountFull(all, done) + if Full(all[i]) then 1 else 0
  {
    if i < |all| - 1 {
      OneMoreFull(Init(all), done, user, i);
    } else {
      SameFull(Init(all), done, user, i);
    }
  }

  lemma {:induction false} SameFull(all: seq<Session>, done: map<string, nat>, user: string, i: nat)
    requires user !in done && |all| <= i
    ensures CountFull(all, done[user := i]) == CountFull(all, done)
  {
    if all != [] {
      SameFull(Init(all), done, user, i);
    }
  }
}
