/** From a client's frame to the rooms: the gate of internal/httpserver/websocket.go in front of the
    in-memory pipeline. */
module EndToEnd {
  import opened GoStrings
  import opened Message
  import MessageGate
  import Pipeline
  import opened RateLimit
  import Room
  import opened Sensitive
  import opened Sequences
  import opened Wrappers

  /** The messages the gate has accepted from a run of frames of any connections. */
  function Accepted(p: Params, words: seq<string>, lower: Casing, frames: seq<MessageGate.Frame>): seq<Danmaku> {
    if frames == [] then []
    else
      var before := Accepted(p, words, lower, Init(frames));
      var table := MessageGate.TableAfter(p, words, lower, Init(frames));
      var verdict := MessageGate.Decision(p, words, lower, table, Last(frames)).1;
      if verdict.Accepted? then before + [verdict.message] else before
  }

  /** The message carries the text of the frame, which has passed all checks of its content, to the
      room of the frame. */
  ghost predicate ComesFrom(words: seq<string>, lower: Casing, m: Danmaku, frame: MessageGate.Frame) {
    && MessageGate.Clean(words, lower, frame) && frame.content == Some(m.content)
    && m.roomID == frame.roomID == TrimSpace(m.roomID) && Validate(m).Pass?
  }

  lemma {:induction false} AcceptedComesFromFrame(p: Params, words: seq<string>, lower: Casing,
                                                  frames: seq<MessageGate.Frame>, m: Danmaku)
    returns (k: nat)
    requires m in Accepted(p, words, lower, frames)
    requires forall i :: 0 <= i < |frames| ==> frames[i].Valid()
    ensures k < |frames| && ComesFrom(words, lower, m, frames[k])
  {
    if m in Accepted(p, words, lower, Init(frames)) {
      k := AcceptedComesFromFrame(p, words, lower, Init(frames), m);
    } else {
      k := |frames| - 1;
      MessageGate.AcceptedIsValid(p, words, lower, MessageGate.TableAfter(p, words, lower, Init(frames)), Last(frames));
    }
  }

  /** Every text in a room's log was broadcast for some handled message of that room. */
  lemma {:induction false} BroadcastHasMessage(handled: seq<Pipeline.Handled>, room: string, i: nat) returns (k: nat)
    requires i < |Pipeline.BroadcastIn(handled, room)|
    ensures k < |handled| && Pipeline.ReachesRoom(handled[k], room)
    ensures handled[k].message.content == Pipeline.BroadcastIn(handled, room)[i]
  {
    if i < |Pipeline.BroadcastIn(Init(handled), room)| {
      k := BroadcastHasMessage(Init(handled), room, i);
    } else {
      k := |handled| - 1;
    }
  }

  /** Everything on the bus has come through the gate. */
  ghost predicate Gated(accepted: seq<Danmaku>, published: seq<Danmaku>) {
    forall i :: 0 <= i < |published| ==> published[i] in accepted
  }

  lemma HandledIsAccepted(capacity: nat, run: seq<Pipeline.Action>, accepted: seq<Danmaku>, k: nat)
    requires Pipeline.After(capacity, run).Some? && k < |Pipeline.After(capacity, run).value.handled|
    requires Gated(accepted, Pipeline.After(capacity, run).value.published)
    ensures Pipeline.After(capacity, run).value.handled[k].message in accepted
  {
    var s := Pipeline.After(capacity, run).value;
    Pipeline.RunsStaySound(capacity, run);
    Pipeline.HandledWasPublished(s.handled, k);
    assert s.published[k] == s.handled[k].message;
  }

  /** If everything on the bus has come through the gate, the broadcast handler never fails. */
  lemma GatedMessagesNeverFail(p: Params, words: seq<string>, lower: Casing, frames: seq<MessageGate.Frame>,
                               capacity: nat, run: seq<Pipeline.Action>, k: nat)
    requires forall i :: 0 <= i < |frames| ==> frames[i].Valid()
    requires Pipeline.After(capacity, run).Some? && k < |Pipeline.After(capacity, run).value.handled|
    requires Gated(Accepted(p, words, lower, frames), Pipeline.After(capacity, run).value.published)
    ensures !Pipeline.After(capacity, run).value.handled[k].fate.Failed?
  {
    var published := Pipeline.After(capacity, run).value.published;
    forall i | 0 <= i < |published|
      ensures Validate(published[i]).Pass?
    {
      var _ := AcceptedComesFromFrame(p, words, lower, frames, published[i]);
    }
    Pipeline.ValidMessagesNeverFail(capacity, run, k);
  }

  /** And every message in a room's log carries the unchanged text of a frame sent to that room, which
      is not blank, not too long and spells none of the listed words. */
  lemma LogsHoldCleanFrames(p: Params, listed: seq<string>, lower: Casing, frames: seq<MessageGate.Frame>,
                            capacity: nat, run: seq<Pipeline.Action>, room: string, i: nat)
    returns (k: nat)
    requires forall j :: 0 <= j < |frames| ==> frames[j].Valid()
    requires Pipeline.After(capacity, run).Some?
    requires KeepsSpace(lower)
    requires Gated(Accepted(p, Cleaned(lower, listed), lower, frames), Pipeline.After(capacity, run).value.published)
    requires room in Pipeline.After(capacity, run).value.rooms
    requires i < |Pipeline.After(capacity, run).value.rooms[room].log|
    ensures k < |frames| && frames[k].roomID == room && MessageGate.Fine(listed, lower, frames[k])
    ensures frames[k].content == Some(Pipeline.After(capacity, run).value.rooms[room].log[i].content)
  {
    var s := Pipeline.After(capacity, run).value;
    Pipeline.EndToEndOrder(capacity, run, room);
    var h := BroadcastHasMessage(s.handled, room, i);
    HandledIsAccepted(capacity, run, Accepted(p, Cleaned(lower, listed), lower, frames), h);
    k := AcceptedComesFromFrame(p, Cleaned(lower, listed), lower, frames, s.handled[h].message);
    MessageGate.CleanExactlyWhenFine(listed, lower, frames[k]);
  }
}
