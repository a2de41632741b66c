/** The reader, the single writer and the teardown of one connection, after
    internal/httpserver/websocket.go. Every channel operation and every network write is one step;
    broadcasts of the room and the closing of the connection from outside interleave freely.

    Room messages are known by their sequence numbers, protocol errors by the order in which the
    reader meets them.
  */
module ConnectionIO {
  import opened Sequences
  import opened Wrappers

  const QUEUE_CAPACITY := 1

  /** `last` says that the connection ends after this error has been reported (invalid JSON). */
  datatype Reader =
    | Reading
    | Offering(error: nat, last: bool)
    | Awaiting(error: nat, last: bool)
    | Leaving
    | Closing
    | Joining
    | Ended

  datatype Writer =
    | Selecting
    | HasMessage(message: nat)
    | HasError(error: nat)
    | Answering(error: nat, ok: bool)
    | Exited

  datatype Frame = MessageFrame(message: nat) | ErrorFrame(error: nat)

  /** A write of an error frame, and whether it succeeded. */
  datatype Attempt = Attempt(error: nat, ok: bool)

  /** `inbox` is the client's queue in the room, `pending` the channel of protocol errors, `done` the
      acknowledgements not yet received. `writeDone` is closed when the writer is Exited. The last
      five fields are history; `frames` lists the data frames written, `reports` what
      queueProtocolError returned. */
  datatype State = State(
    reader: Reader,
    writer: Writer,
    inbox: seq<nat>,
    inboxOpen: bool,
    pending: Option<nat>,
    done: map<nat, bool>,
    connOpen: bool,
    errors: nat,
    attempts: seq<Attempt>,
    reports: map<nat, bool>,
    offered: seq<nat>,
    frames: seq<Frame>)

  const INITIAL := State(Reading, Selecting, [], true, None, map[], true, 0, [], map[], [], [])

  datatype Action =
    | Offer(message: nat)
    | CloseFromOutside
    | ReadFine
    | ReadRefused(last: bool)
    | ReadFails
    | SendError
    | SendAbandoned
    | ReceiveAnswer
    | AnswerAbandoned
    | LeaveRoom
    | CloseConnection
    | JoinWriter
    | TakeMessage
    | SeeClosed
    | TakeError
    | WriteMessage(ok: bool)
    | WriteError(ok: bool)
    | Answer

  /** What the room, the server and the client do. */
  predicate Outside(a: Action) {
    a.Offer? || a.CloseFromOutside? || a.ReadFine? || a.ReadRefused? || a.ReadFails?
  }

  predicate Enabled(s: State, a: Action) {
    match a
    case Offer(_) => s.inboxOpen && |s.inbox| < QUEUE_CAPACITY
    case CloseFromOutside => s.connOpen
    case ReadFine => s.reader.Reading? && s.connOpen
    case ReadRefused(_) => s.reader.Reading? && s.connOpen
    case ReadFails => s.reader.Reading?
    case SendError => s.reader.Offering? && s.pending.None?
    case SendAbandoned => s.reader.Offering? && s.writer.Exited?
    case ReceiveAnswer => s.reader.Awaiting? && s.reader.error in s.done
    case AnswerAbandoned => s.reader.Awaiting? && s.writer.Exited?
    case LeaveRoom => s.reader.Leaving?
    case CloseConnection => s.reader.Closing?
    case JoinWriter => s.reader.Joining? && s.writer.Exited?
    case TakeMessage => s.writer.Selecting? && s.inbox != []
    case SeeClosed => s.writer.Selecting? && s.inbox == [] && !s.inboxOpen
    case TakeError => s.writer.Selecting? && s.pending.Some?
    case WriteMessage(ok) => s.writer.HasMessage? && (ok ==> s.connOpen)
    case WriteError(ok) => s.writer.HasError? && (ok ==> s.connOpen)
    case Answer => s.writer.Answering? && s.writer.error !in s.done
  }

  /** queueProtocolError returns to the read loop, which goes on or starts the teardown. */
  function Report(s: State, sent: bool): State
    requires s.reader.Offering? || s.reader.Awaiting?
  {
    s.(reports := s.reports[s.reader.error := sent], reader := if sent && !s.reader.last then Reading else Leaving)
  }

  function Apply(s: State, a: Action): State
    requires Enabled(s, a)
  {
    match a
    case Offer(m) => s.(inbox := s.inbox + [m], offered := s.offered + [m])
    case CloseFromOutside => s.(connOpen := false)
    case ReadFine => s
    case ReadRefused(last) => s.(reader := Offering(s.errors, last), errors := s.errors + 1)
    case ReadFails => s.(reader := Leaving)
    case SendError => s.(pending := Some(s.reader.error), reader := Awaiting(s.reader.error, s.reader.last))
    case SendAbandoned => Report(s, false)
    case ReceiveAnswer => Report(s.(done := s.done - {s.reader.error}), s.done[s.reader.error])
    case AnswerAbandoned => Report(s, false)
    case LeaveRoom => s.(inboxOpen := false, reader := Closing)
    case CloseConnection => s.(connOpen := false, reader := Joining)
    case JoinWriter => s.(reader := Ended)
    case TakeMessage => s.(inbox := s.inbox[1..], writer := HasMessage(s.inbox[0]))
    case SeeClosed => s.(writer := Exited)
    case TakeError => s.(pending := None, writer := HasError(s.pending.value))
    case WriteMessage(ok) =>
      if ok then s.(frames := s.frames + [MessageFrame(s.writer.message)], writer := Selecting) else s.(writer := Exited)
    case WriteError(ok) =>
      var e := s.writer.error;
      s.(attempts := s.attempts + [Attempt(e, ok)], writer := Answering(e, ok),
         frames := if ok then s.frames + [ErrorFrame(e)] else s.frames)
    case Answer =>
      s.(done := s.done[s.writer.error := s.writer.ok], writer := if s.writer.ok then Selecting else Exited)
  }

  function After(run: seq<Action>): Option<State> {
    if run == [] then Some(INITIAL)
    else
      var s := After(Init(run));
      if s.Some? && Enabled(s.value, Last(run)) then Some(Apply(s.value, Last(run))) else None
  }

  // ---------------------------------------------------------------------------------------------
  // One error at a time
  // ---------------------------------------------------------------------------------------------

  /** `e` is the newest error and no attempt to write it has been made. */
  ghost predicate Unwritten(s: State, e: nat) {
    && e + 1 == s.errors && e !in s.done
    && forall k :: 0 <= k < |s.attempts| ==> s.attempts[k].error < e
  }

  /** `e` is the newest error and the last one an attempt was made for, with the given outcome. */
  ghost predicate Written(s: State, e: nat, ok: bool) {
    e + 1 == s.errors && s.attempts != [] && Last(s.attempts) == Attempt(e, ok)
  }

  /** Where the newest error is. */
  ghost predicate Tracked(s: State) {
    && (s.pending.Some? ==> Unwritten(s, s.pending.value))
    && (s.writer.HasError? ==> Unwritten(s, s.writer.error) && s.pending.None?)
    && (s.writer.Answering? ==>
          Written(s, s.writer.error, s.writer.ok) && s.writer.error !in s.done && s.pending.None?)
    && (forall e :: e in s.done ==> Written(s, e, s.done[e]) && s.pending.None?)
  }

  /** No error is under way between reader and writer. */
  ghost predicate Undisturbed(s: State) {
    s.pending.None? && s.done == map[] && !s.writer.HasError? && !s.writer.Answering?
  }

  /** What the reader's state says about the error it deals with. While it waits, the error is in
      exactly one place: with the writer, in the channel, or answered; unless the writer is gone. */
  ghost predicate Answerable(s: State) {
    match s.reader
    case Reading => Undisturbed(s)
    case Offering(e, _) => Unwritten(s, e) && Undisturbed(s)
    case Awaiting(e, _) =>
      && e + 1 == s.errors
      && (s.pending == Some(e) || s.writer == HasError(e) || (s.writer.Answering? && s.writer.error == e) || e in s.done)
    case _ => true
  }

  /** Errors are attempted in the order in which they were met, each at most once; what was reported
      as sent had been written. */
  ghost predicate Honest(s: State) {
    && (forall k :: 0 <= k < |s.attempts| ==> s.attempts[k].error < s.errors)
    && (forall j, k :: 0 <= j < k < |s.attempts| ==> s.attempts[j].error < s.attempts[k].error)
    && (forall e :: e in s.reports && s.reports[e] ==> Attempt(e, true) in s.attempts)
  }

  /** The error frames written are the successful attempts. */
  ghost predicate Recorded(frames: seq<Frame>, attempts: seq<Attempt>) {
    (forall e :: ErrorFrame(e) in frames <==> Attempt(e, true) in attempts) && AscendingErrors(frames)
  }

  /** The error frames come in the order of the errors, none twice. */
  ghost predicate AscendingErrors(frames: seq<Frame>) {
    forall j, k :: 0 <= j < k < |frames| && frames[j].ErrorFrame? && frames[k].ErrorFrame? ==>
      frames[j].error < frames[k].error
  }

  /** The inbox is open until the reader has left the room, the connection until it has closed it. */
  ghost predicate Staged(s: State) {
    && (s.inboxOpen <==> !(s.reader.Closing? || s.reader.Joining? || s.reader.Ended?))
    && (s.reader.Joining? || s.reader.Ended? ==> !s.connOpen)
    && (s.reader.Ended? ==> s.writer.Exited?)
    && |s.inbox| <= QUEUE_CAPACITY
  }

  ghost predicate Sound(s: State) {
    Tracked(s) && Answerable(s) && Honest(s) && Recorded(s.frames, s.attempts) && Staged(s)
  }

  /** The steps of the writer that deal with an error. */
  predicate HandlesError(a: Action) {
    a.TakeError? || a.WriteError? || a.Answer?
  }

  lemma ErrorStepStaysTracked(s: State, a: Action)
    requires Tracked(s) && Enabled(s, a) && HandlesError(a)
    ensures Tracked(Apply(s, a))
  {
  }

  lemma OtherStepStaysTracked(s: State, a: Action)
    requires Tracked(s) && Answerable(s) && Enabled(s, a) && !HandlesError(a)
    ensures Tracked(Apply(s, a))
  {
  }

  lemma StaysTracked(s: State, a: Action)
    requires Tracked(s) && Answerable(s) && Enabled(s, a)
    ensures Tracked(Apply(s, a))
  {
    if HandlesError(a) {
      ErrorStepStaysTracked(s, a);
    } else {
      OtherStepStaysTracked(s, a);
    }
  }

  lemma StaysAnswerable(s: State, a: Action)
    requires Sound(s) && Enabled(s, a)
    ensures Answerable(Apply(s, a))
  {
  }

  lemma StaysHonest(s: State, a: Action)
    requires Sound(s) && Enabled(s, a)
    ensures Honest(Apply(s, a))
  {
  }

  lemma AttemptStaysRecorded(frames: seq<Frame>, attempts: seq<Attempt>, e: nat, ok: bool)
    requires Recorded(frames, attempts) && forall k :: 0 <= k < |attempts| ==> attempts[k].error < e
    ensures Recorded(if ok then frames + [ErrorFrame(e)] else frames, attempts + [Attempt(e, ok)])
  {
    forall j | 0 <= j < |frames| && frames[j].ErrorFrame?
      ensures frames[j].error < e
    {
      assert ErrorFrame(frames[j].error) in frames;
    }
  }

  lemma StaysRecorded(s: State, a: Action)
    requires Tracked(s) && Recorded(s.frames, s.attempts) && Enabled(s, a)
    ensures Recorded(Apply(s, a).frames, Apply(s, a).attempts)
  {
    if a.WriteError? {
      AttemptStaysRecorded(s.frames, s.attempts, s.writer.error, a.ok);
    }
  }

  lemma StaysStaged(s: State, a: Action)
    requires Staged(s) && Enabled(s, a)
    ensures Staged(Apply(s, a))
  {
  }

  lemma {:induction false} RunsStaySound(run: seq<Action>)
    requires After(run).Some?
    ensures Sound(After(run).value)
  {
    if run != [] {
      RunsStaySound(Init(run));
      var s, a := After(Init(run)).value, Last(run);
      StaysTracked(s, a);
      StaysAnswerable(s, a);
      StaysHonest(s, a);
      StaysRecorded(s, a);
      StaysStaged(s, a);
    }
  }

  /** Error frames are written in the order of the errors, none more than once, nor is any attempted
      twice; and an error reported as sent is among the frames written. */
  lemma ReportedMeansWritten(run: seq<Action>)
    requires After(run).Some?
    ensures var s := After(run).value;
            && AscendingErrors(s.frames)
            && (forall j, k :: 0 <= j < k < |s.attempts| ==> s.attempts[j].error < s.attempts[k].error)
            && (forall e :: e in s.reports && s.reports[e] ==> ErrorFrame(e) in s.frames)
  {
    RunsStaySound(run);
  }

  /** When the writer has answered, the reader reports the error as sent exactly if its frame was written.
      It goes on reading exactly if, besides, the error was not the last one; otherwise it leaves. */
  lemma AnswerDecides(run: seq<Action>)
    requires After(run).Some? && Enabled(After(run).value, ReceiveAnswer)
    ensures var s, t := After(run).value, Apply(After(run).value, ReceiveAnswer);
            && s.reader.error in t.reports
            && (t.reports[s.reader.error] <==> ErrorFrame(s.reader.error) in s.frames)
            && t.reader == if ErrorFrame(s.reader.error) in s.frames && !s.reader.last then Reading else Leaving
  {
    RunsStaySound(run);
    var s := After(run).value;
    var e := s.reader.error;
    assert Written(s, e, s.done[e]) && Last(s.attempts) in s.attempts;
    if Attempt(e, true) in s.attempts {
      var k :| 0 <= k < |s.attempts| && s.attempts[k] == Attempt(e, true);
      assert k == |s.attempts| - 1;
    }
  }

  /** An error the writer cannot take or answer any more is reported as not sent, and the reader leaves. */
  lemma GoneWriterEndsConnection(s: State, a: Action)
    requires Enabled(s, a) && (a.SendAbandoned? || a.AnswerAbandoned?)
    ensures var t := Apply(s, a); s.reader.error in t.reports && !t.reports[s.reader.error] && t.reader.Leaving?
  {
  }

  /** The reader will not read again. */
  predicate Finishing(reader: Reader) {
    match reader
    case Reading => false
    case Offering(_, last) => last
    case Awaiting(_, last) => last
    case _ => true
  }

  lemma StaysFinishing(s: State, a: Action)
    requires Finishing(s.reader) && Enabled(s, a)
    ensures Finishing(Apply(s, a).reader) && Apply(s, a).errors == s.errors
  {
  }

  /** Invalid JSON ends the connection: whatever happens, nothing is read after it. */
  lemma {:induction false} NothingReadAfterInvalidJSON(run: seq<Action>, more: seq<Action>)
    requires After(run + [ReadRefused(true)] + more).Some?
    ensures var s := After(run + [ReadRefused(true)] + more).value;
            Finishing(s.reader) && !Enabled(s, ReadFine) && forall last :: !Enabled(s, ReadRefused(last))
    decreases |more|
  {
    var whole := run + [ReadRefused(true)] + more;
    if more == [] {
      assert Init(whole) == run && Last(whole) == ReadRefused(true);
    } else {
      assert Init(whole) == run + [ReadRefused(true)] + Init(more);
      NothingReadAfterInvalidJSON(run, Init(more));
      StaysFinishing(After(Init(whole)).value, Last(more));
    }
  }

  // ---------------------------------------------------------------------------------------------
  // No deadlock
  // ---------------------------------------------------------------------------------------------

  /** The writer never blocks on an acknowledgement: its channel always has room for the answer. */
  lemma WriterNeverBlocksOnAnswer(run: seq<Action>)
    requires After(run).Some? && After(run).value.writer.Answering?
    ensures Enabled(After(run).value, Answer)
  {
    RunsStaySound(run);
  }

  /** Reader and writer never wait for each other for ever: unless the reader waits for the client, or
      has ended, one of them can take a step, whatever the rest of the world does. */
  lemma NeverDeadlocked(run: seq<Action>) returns (a: Action)
    requires After(run).Some?
    requires !After(run).value.reader.Reading? && !After(run).value.reader.Ended?
    ensures Enabled(After(run).value, a) && !Outside(a)
  {
    RunsStaySound(run);
    var s := After(run).value;
    match s.reader
    case Offering(_, _) => a := SendError;
    case Awaiting(e, _) =>
      a := if e in s.done then ReceiveAnswer else if s.writer.Exited? then AnswerAbandoned else WriterStep(s);
    case Leaving => a := LeaveRoom;
    case Closing => a := CloseConnection;
    case Joining => a := if s.writer.Exited? then JoinWriter else WriterStep(s);
  }

  /** What the writer can do next. */
  function WriterStep(s: State): Action {
    match s.writer
    case Selecting => if s.inbox != [] then TakeMessage else if s.pending.Some? then TakeError else SeeClosed
    case HasMessage(_) => WriteMessage(false)
    case HasError(_) => WriteError(false)
    case Answering(_, _) => Answer
    case Exited => Answer
  }

  // ---------------------------------------------------------------------------------------------
  // The teardown ends
  // ---------------------------------------------------------------------------------------------

  function WriterStepsLeft(writer: Writer): nat {
    match writer
    case Selecting => 1
    case HasMessage(_) => 2
    case HasError(_) => 3
    case Answering(_, _) => 2
    case Exited => 0
  }

  function ReaderStepsLeft(reader: Reader): nat {
    match reader
    case Closing => 2
    case Joining => 1
    case _ => 0
  }

  /** An upper bound of the steps that can still be taken after the room has been left. */
  function TeardownLeft(s: State): nat {
    2 * |s.inbox| + (if s.pending.Some? then 3 else 0) + WriterStepsLeft(s.writer) + ReaderStepsLeft(s.reader)
    + if s.connOpen then 1 else 0
  }

  /** After the reader has left the room every step, whoever takes it, brings the end nearer. Until
      the end one of them is possible, so the wait for the writer comes to an end. */
  lemma TeardownEnds(run: seq<Action>, a: Action)
    requires After(run).Some? && !After(run).value.inboxOpen && Enabled(After(run).value, a)
    ensures var s := After(run).value;
            && TeardownLeft(Apply(s, a)) < TeardownLeft(s) <= 11
            && !Apply(s, a).inboxOpen
  {
    RunsStaySound(run);
  }

  // ---------------------------------------------------------------------------------------------
  // Room messages keep their order
  // ---------------------------------------------------------------------------------------------

  function MessagesOf(frames: seq<Frame>): seq<nat> {
    if frames == [] then []
    else if Last(frames).MessageFrame? then MessagesOf(Init(frames)) + [Last(frames).message]
    else MessagesOf(Init(frames))
  }

  function InWriter(writer: Writer): seq<nat> {
    if writer.HasMessage? then [writer.message] else []
  }

  /** What was written, what the writer holds and what waits is what the room has offered, in order;
      a writer that has gone may have lost the one message whose write failed. */
  ghost predicate InOrder(s: State) {
    if s.writer.Exited? then MessagesOf(s.frames) <= s.offered
    else s.offered == MessagesOf(s.frames) + InWriter(s.writer) + s.inbox
  }

  lemma FramesOneMore(frames: seq<Frame>, f: Frame)
    ensures MessagesOf(frames + [f]) == if f.MessageFrame? then MessagesOf(frames) + [f.message] else MessagesOf(frames)
  {
    assert Init(frames + [f]) == frames;
  }

  lemma StaysInOrder(s: State, a: Action)
    requires InOrder(s) && Enabled(s, a)
    ensures InOrder(Apply(s, a))
  {
    match a
    case Offer(m) =>
      var before := MessagesOf(s.frames) + InWriter(s.writer);
      assert before + (s.inbox + [m]) == before + s.inbox + [m];
    case TakeMessage => assert s.inbox == [s.inbox[0]] + s.inbox[1..];
    case WriteMessage(ok) => FramesOneMore(s.frames, MessageFrame(s.writer.message));
    case WriteError(ok) => FramesOneMore(s.frames, ErrorFrame(s.writer.error));
    case _ =>
  }

  /** Whatever errors are interleaved with them, the message frames of a connection are a prefix of
      what the room has put into its queue. */
  lemma {:induction false} MessageFramesInOrder(run: seq<Action>)
    requires After(run).Some?
    ensures InOrder(After(run).value) && MessagesOf(After(run).value.frames) <= After(run).value.offered
  {
    if run != [] {
      MessageFramesInOrder(Init(run));
      StaysInOrder(After(Init(run)).value, Last(run));
    }
  }
}
