/** The table of rooms of internal/room/registry.go, and the broadcast handler of
    internal/httpserver/messagebus.go that works on it. */
module RoomRegistry {
  import opened GoStrings
  import Room
  import opened RoomObjects
  import opened Wrappers

  datatype Error = EmptyRoomID | PublishFailed(error: Room.Error)

  class Registry {
    var rooms: map<string, ChatRoom>
    /** Every room and every client channel reachable from the table. */
    ghost var Repr: set<object>

    /** Distinct identifiers have distinct rooms, which have no client channel in common. */
    ghost predicate Valid()
      reads this, Repr
    {
      && this in Repr
      && (forall k :: k in rooms ==> rooms[k] in Repr && rooms[k].channels <= Repr && rooms[k].Valid())
      && (forall j, k :: j in rooms && k in rooms && j != k ==>
            rooms[j] != rooms[k] && rooms[j].channels !! rooms[k].channels)
    }

    constructor ()
      ensures Valid() && rooms == map[] && fresh(Repr)
    {
      rooms, Repr := map[], {this};
    }

    /** The state of the room of an identifier; a room that does not exist yet would be empty. */
    ghost function StateOf(id: string): Room.State
      requires Valid()
      reads this, Repr
    {
      if id in rooms then rooms[id].state else Room.EMPTY
    }

    /** No room of the table but that of `id` has changed. */
    twostate predicate OthersKept(id: string)
      reads this, Repr
      requires old(Valid()) && Valid()
    {
      forall k :: k in old(rooms) ==>
        k in rooms && rooms[k] == old(rooms[k]) && (k != id ==> StateOf(k) == old(StateOf(k)))
    }

    /** The room of the trimmed identifier: the one it had before, or a new empty one. */
    method GetOrCreate(roomID: string) returns (r: Result<ChatRoom, Error>)
      requires Valid()
      modifies this
      ensures Valid() && fresh(Repr - old(Repr)) && old(Repr) <= Repr
      ensures var id := TrimSpace(roomID);
              if id == "" then r == Err(EmptyRoomID) && rooms == old(rooms)
              else if id in old(rooms) then r == Ok(old(rooms)[id]) && rooms == old(rooms)
              else r.Ok? && fresh(r.value) && r.value.state == Room.EMPTY && rooms == old(rooms)[id := r.value]
      ensures forall k :: StateOf(k) == old(StateOf(k))
    {
      var id := TrimSpace(roomID);
      if id == "" {
        return Err(EmptyRoomID);
      }
      if id in rooms {
        return Ok(rooms[id]);
      }
      var newRoom := new ChatRoom();
      Enter(id, newRoom);
      return Ok(newRoom);
    }

    /** Enters a new room into the table. */
    method Enter(id: string, newRoom: ChatRoom)
      requires Valid() && id !in rooms && newRoom !in Repr && newRoom.Valid() && newRoom.channels == {}
      modifies this
      ensures Valid() && rooms == old(rooms)[id := newRoom] && Repr == old(Repr) + {newRoom}
    {
      rooms := rooms[id := newRoom];
      Repr := Repr + {newRoom};
    }

    /** The broadcast handler. A room without clients swallows the message; only that room changes. */
    method Handle(roomID: string, content: string) returns (r: Outcome<Error>)
      requires Valid()
      modifies Repr
      ensures Valid() && fresh(Repr - old(Repr))
      ensures var id := TrimSpace(roomID);
              && OthersKept(id)
              && (id == "" ==> r == Fail(EmptyRoomID) && rooms == old(rooms))
              && (id != "" ==>
                    var before := old(StateOf(id));
                    var published := Room.TryPublish(before, content);
                    && id in rooms
                    && StateOf(id) == (if published.Ok? then published.value.0 else before)
                    && r == if published.Ok? || published.error.NoClient? then Pass
                            else Fail(PublishFailed(published.error)))
    {
      var found := GetOrCreate(roomID);
      if found.Err? {
        return Fail(found.error);
      }
      r := Deliver(TrimSpace(roomID), content);
    }

    /** Broadcasting to a room without clients is no error of the handler. */
    method Deliver(id: string, content: string) returns (r: Outcome<Error>)
      requires Valid() && id in rooms
      modifies Repr
      ensures Valid() && rooms == old(rooms) && Repr == old(Repr) && OthersKept(id)
      ensures var published := Room.TryPublish(old(StateOf(id)), content);
              && StateOf(id) == (if published.Ok? then published.value.0 else old(StateOf(id)))
              && r == if published.Ok? || published.error.NoClient? then Pass
                      else Fail(PublishFailed(published.error))
    {
      var published := PublishIn(id, content);
      if published.Err? && !published.error.NoClient? {
        return Fail(PublishFailed(published.error));
      }
      return Pass;
    }

    // What handlers and writers do with a room of the table leaves all other rooms alone.

    method PublishIn(id: string, content: string) returns (r: Result<nat, Room.Error>)
      requires Valid() && id in rooms
      modifies Repr
      ensures Valid() && rooms == old(rooms) && Repr == old(Repr) && OthersKept(id)
      ensures var published := Room.TryPublish(old(StateOf(id)), content);
              && StateOf(id) == (if published.Ok? then published.value.0 else old(StateOf(id)))
              && r == (if published.Ok? then Ok(published.value.1) else Err(published.error))
    {
      r := rooms[id].Publish(content);
    }

    method JoinIn(id: string, clientID: string) returns (r: Result<Client, Room.Error>)
      requires Valid() && id in rooms
      modifies Repr
      ensures Valid() && rooms == old(rooms) && fresh(Repr - old(Repr)) && OthersKept(id)
      ensures StateOf(id) == Room.Apply(old(StateOf(id)), Room.Join(clientID))
      ensures r.Ok? <==> Room.TryJoin(old(StateOf(id)), clientID).Ok?
    {
      r := rooms[id].Join(clientID);
      Repr := Repr + rooms[id].channels;
    }

    method LeaveIn(id: string, clientID: string) returns (r: Outcome<Room.Error>)
      requires Valid() && id in rooms
      modifies Repr
      ensures Valid() && rooms == old(rooms) && Repr == old(Repr) && OthersKept(id)
      ensures StateOf(id) == Room.Apply(old(StateOf(id)), Room.Leave(clientID))
      ensures r.Pass? <==> Room.TryLeave(old(StateOf(id)), clientID).Ok?
    {
      r := rooms[id].Leave(clientID);
    }

    method ReceiveIn(id: string, client: Client) returns (r: Option<Room.Message>)
      requires Valid() && id in rooms
      requires client.index < |rooms[id].sessions| && rooms[id].sessions[client.index] == client
      modifies Repr
      ensures Valid() && rooms == old(rooms) && Repr == old(Repr) && OthersKept(id)
      ensures StateOf(id) == Room.Apply(old(StateOf(id)), Room.Receive(client.index))
      ensures var queue := old(client.queue); r == if queue == [] then None else Some(queue[0])
    {
      r := rooms[id].Receive(client);
    }
  }
}
