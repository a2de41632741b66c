/** The single-process message bus of internal/bus/inmemory.go: a bounded queue and a flag that admits
    one consumer at a time. */
module InMemoryBus {
  import opened Message
  import opened Wrappers

  datatype Error = InvalidBuffer | NilHandler | ConsumerAlreadyRunning | ContextDone | HandlerFailed

  /** What a select statement finds: whether the context is done, and which branch it takes when both
      are ready. */
  datatype Select = Select(done: bool, preferDone: bool)

  /** One turn of the consumer: before its select other publishers may enqueue messages. */
  datatype Turn = Turn(arrivals: seq<Danmaku>, select: Select)

  /** The result of a call that may still be waiting. */
  datatype Progress<+E> = Waiting | Returned(result: Outcome<E>)

  class Bus {
    var messages: seq<Danmaku>
    var consuming: bool
    const capacity: nat

    ghost predicate Valid()
      reads this
    {
      |messages| <= capacity && capacity > 0
    }

    constructor (capacity: nat)
      requires capacity > 0
      ensures Valid() && this.capacity == capacity && messages == [] && !consuming
    {
      messages, consuming, this.capacity := [], false, capacity;
    }

    static method New(bufferSize: int) returns (r: Result<Bus, Error>)
      ensures bufferSize <= 0 ==> r == Err(InvalidBuffer)
      ensures bufferSize > 0 ==> r.Ok? && fresh(r.value) && r.value.Valid() && r.value.capacity == bufferSize
                                 && r.value.messages == [] && !r.value.consuming
    {
      if bufferSize <= 0 {
        return Err(InvalidBuffer);
      }
      var bus := new Bus(bufferSize);
      return Ok(bus);
    }

    /** A full queue makes the caller wait; nothing is dropped. */
    method Publish(msg: Danmaku, turn: Select) returns (r: Progress<Error>)
      requires Valid()
      modifies this
      ensures Valid() && consuming == old(consuming)
      ensures messages == if r == Returned(Pass) then old(messages) + [msg] else old(messages)
      ensures r.Waiting? <==> |old(messages)| == capacity && !turn.done
      ensures r == Returned(Pass) <==> |old(messages)| < capacity && !(turn.done && turn.preferDone)
      ensures r == Waiting || r == Returned(Pass) || r == Returned(Fail(ContextDone))
    {
      if |messages| < capacity && !(turn.done && turn.preferDone) {
        messages := messages + [msg];
        return Returned(Pass);
      }
      return if turn.done then Returned(Fail(ContextDone)) else Waiting;
    }

    /** Other publishers enqueue messages as long as there is room; the rest keeps waiting. */
    method Admit(arrivals: seq<Danmaku>) returns (admitted: nat)
      requires Valid()
      modifies this`messages
      ensures Valid() && admitted <= |arrivals| && messages == old(messages) + arrivals[..admitted]
      ensures admitted < |arrivals| ==> |messages| == capacity
    {
      admitted := if |messages| + |arrivals| <= capacity then |arrivals| else capacity - |messages|;
      messages := messages + arrivals[..admitted];
    }

    method Take() returns (msg: Danmaku)
      requires Valid() && messages != []
      modifies this`messages
      ensures Valid() && [msg] + messages == old(messages)
    {
      msg := messages[0];
      messages := messages[1..];
    }

    /** Hands the queued messages to the handler, one by one and in order, for as many turns of its
        select as given; `arrived` are the messages that others have enqueued meanwhile. `fails` says
        for which messages the handler returns an error, None stands for no handler; a message whose
        handler fails is not put back. A call that has not returned goes on holding the flag. */
    method Consume(fails: Option<Danmaku -> bool>, turns: seq<Turn>)
      returns (r: Progress<Error>, handled: seq<Danmaku>, arrived: seq<Danmaku>)
      requires Valid()
      modifies this
      ensures Valid() && handled + messages == old(messages) + arrived
      ensures forall m :: m in arrived ==> exists i :: 0 <= i < |turns| && m in turns[i].arrivals
      ensures fails.None? ==> r == Returned(Fail(NilHandler)) && handled == arrived == [] && consuming == old(consuming)
      ensures fails.Some? && old(consuming) ==>
                r == Returned(Fail(ConsumerAlreadyRunning)) && handled == arrived == [] && consuming
      ensures fails.Some? && !old(consuming) ==>
                && consuming == r.Waiting?
                && (forall i :: 0 <= i < |handled| && fails.value(handled[i]) ==> i == |handled| - 1)
                && (r == Returned(Fail(HandlerFailed)) <==> handled != [] && fails.value(handled[|handled| - 1]))
                && (r.Returned? && r != Returned(Fail(HandlerFailed)) ==>
                      r == Returned(Fail(ContextDone)) && exists i :: 0 <= i < |turns| && turns[i].select.done)
                && (r.Waiting? ==>
                      |turns| >= |handled| >= if |turns| < |old(messages)| then |turns| else |old(messages)|)
    {
      handled, arrived := [], [];
      if fails.None? {
        return Returned(Fail(NilHandler)), handled, arrived;
      }
      if consuming {
        return Returned(Fail(ConsumerAlreadyRunning)), handled, arrived;
      }
      consuming := true;
      for i := 0 to |turns|
        invariant Valid() && consuming && handled + messages == old(messages) + arrived
        invariant forall m :: m in arrived ==> exists k :: 0 <= k < |turns| && m in turns[k].arrivals
        invariant forall k :: 0 <= k < |handled| ==> !fails.value(handled[k])
        invariant i >= |handled| >= if i < |old(messages)| then i else |old(messages)|
      {
        var turn := turns[i];
        ghost var queued := messages;
        var admitted := Admit(turn.arrivals);
        var enqueued := turn.arrivals[..admitted];
        assert handled + (queued + enqueued) == (old(messages) + arrived) + enqueued ==
               old(messages) + (arrived + enqueued);
        arrived := arrived + enqueued;
        if turn.select.done && (messages == [] || turn.select.preferDone) {
          consuming := false;
          return Returned(Fail(ContextDone)), handled, arrived;
        }
        if messages != [] {
          queued := messages;
          var msg := Take();
          assert handled + queued == handled + [msg] + messages;
          handled := handled + [msg];
          if fails.value(msg) {
            consuming := false;
            return Returned(Fail(HandlerFailed)), handled, arrived;
          }
        }
      }
      return Waiting, handled, arrived;
    }
  }
}
