/** The checks a client's frame passes before it reaches the message bus, in the order of the read loop
    of internal/httpserver/websocket.go. */
module MessageGate {
  import opened GoStrings
  import opened Message
  import PartitionConsumer
  import opened RateLimit
  import opened Sensitive
  import opened Sequences
  import opened Wrappers

  const MAX_CONTENT_RUNES := 500

  const MESSAGE_ID_BYTES := 16

  const HEX_DIGITS := "0123456789abcdef"

  type Byte = b: int | 0 <= b < 256

  function HexEncode(value: seq<Byte>): (r: string)
    ensures |r| == 2 * |value|
  {
    if value == [] then "" else [HEX_DIGITS[value[0] / 16], HEX_DIGITS[value[0] % 16]] + HexEncode(value[1..])
  }

  /** The value of a hexadecimal digit; -1 stands for other characters. */
  function DigitValue(c: char): int {
    if '0' <= c <= '9' then c as int - '0' as int
    else if 'a' <= c <= 'f' then c as int - 'a' as int + 10
    else -1
  }

  /** `id` spells the bytes in lower-case hexadecimal, two digits for each. */
  ghost predicate IsHexOf(id: string, value: seq<Byte>) {
    && |id| == 2 * |value|
    && forall k :: 0 <= k < |value| ==>
         DigitValue(id[2 * k]) >= 0 && DigitValue(id[2 * k + 1]) >= 0
         && value[k] == 16 * DigitValue(id[2 * k]) + DigitValue(id[2 * k + 1])
  }

  lemma DigitIsItsValue(n: nat)
    requires n < 16
    ensures DigitValue(HEX_DIGITS[n]) == n
  {
  }

  lemma HexOfOneMore(high: char, low: char, b: Byte, id: string, value: seq<Byte>)
    requires IsHexOf(id, value) && DigitValue(high) == b / 16 && DigitValue(low) == b % 16
    ensures IsHexOf([high, low] + id, [b] + value)
  {
    var longer := [high, low] + id;
    forall k | 0 <= k < |value| + 1
      ensures DigitValue(longer[2 * k]) >= 0 && DigitValue(longer[2 * k + 1]) >= 0
      ensures ([b] + value)[k] == 16 * DigitValue(longer[2 * k]) + DigitValue(longer[2 * k + 1])
    {
      if k > 0 {
        assert longer[2 * k] == id[2 * (k - 1)] && longer[2 * k + 1] == id[2 * (k - 1) + 1];
      }
    }
  }

  lemma {:induction false} HexEncodeIsHex(value: seq<Byte>)
    ensures IsHexOf(HexEncode(value), value)
  {
    if value != [] {
      var b, rest := value[0], value[1..];
      HexEncodeIsHex(rest);
      DigitIsItsValue(b / 16);
      DigitIsItsValue(b % 16);
      HexOfOneMore(HEX_DIGITS[b / 16], HEX_DIGITS[b % 16], b, HexEncode(rest), rest);
      assert value == [b] + rest;
    }
  }

  lemma DistinctDigits(a: Byte, b: Byte)
    requires HEX_DIGITS[a / 16] == HEX_DIGITS[b / 16] && HEX_DIGITS[a % 16] == HEX_DIGITS[b % 16]
    ensures a == b
  {
    assert forall i, j :: 0 <= i < j < 16 ==> HEX_DIGITS[i] != HEX_DIGITS[j];
  }

  /** Different random values give different message IDs. */
  lemma {:induction false} DistinctMessageIDs(a: seq<Byte>, b: seq<Byte>)
    requires HexEncode(a) == HexEncode(b)
    ensures a == b
  {
    if a != [] {
      assert |HexEncode(a)| == |HexEncode(b)|;
      var x, y := HexEncode(a), HexEncode(b);
      assert x[0] == y[0] && x[1] == y[1] && x[2..] == y[2..];
      DistinctDigits(a[0], b[0]);
      assert x[2..] == HexEncode(a[1..]) && y[2..] == HexEncode(b[1..]);
      DistinctMessageIDs(a[1..], b[1..]);
      assert a == [a[0]] + a[1..] && b == [b[0]] + b[1..];
    }
  }

  datatype Verdict =
    | InvalidJSON
    | EmptyContent
    | ContentTooLong
    | SensitiveContent
    | RateLimited
    | Unavailable
    | Accepted(message: Danmaku)

  /** One connection's part in the decision, and what the environment contributes: whether the consumer
      is ready, the random value for the ID if there is one, and the clock. */
  datatype Frame = Frame(roomID: string, userID: string, content: Option<string>, now: real,
                         ready: bool, random: Option<seq<Byte>>, createdAt: int)
  {
    /** What the handshake has made sure of; the clock does not show the zero time, and a random value
        has the length asked for. */
    predicate Valid() {
      && roomID != "" && Trimmed(roomID) && userID != "" && Trimmed(userID)
      && createdAt != ZERO_TIME && (random.Some? ==> |random.value| == MESSAGE_ID_BYTES)
    }
  }

  method Decide(limiter: Limiter, filter: Filter, frame: Frame) returns (verdict: Verdict)
    requires limiter.Valid() && frame.Valid()
    modifies limiter, limiter.buckets.Values
    ensures limiter.Valid() && fresh(limiter.buckets.Values - old(limiter.buckets.Values))
    ensures (limiter.Table(), verdict) ==
            Decision(limiter.Settings(), filter.words, filter.lower, old(limiter.Table()), frame)
  {
    if frame.content.None? {
      return InvalidJSON;
    }
    var content := frame.content.value;
    if TrimSpace(content) == "" {
      return Verdict.EmptyContent;
    }
    if |content| > MAX_CONTENT_RUNES {
      return ContentTooLong;
    }
    var _, matched := filter.Match(content);
    if matched {
      return SensitiveContent;
    }
    var allowed := limiter.Allow(frame.userID, frame.now);
    if !allowed {
      return RateLimited;
    }
    if !frame.ready || frame.random.None? {
      return Unavailable;
    }
    return Accepted(Danmaku(HexEncode(frame.random.value), frame.roomID, frame.userID, content, 0, frame.createdAt));
  }

  /** Does the content of the frame pass the checks before the limiter? */
  predicate Clean(words: seq<string>, lower: Casing, frame: Frame) {
    && frame.content.Some?
    && TrimSpace(frame.content.value) != ""
    && |frame.content.value| <= MAX_CONTENT_RUNES
    && FirstMatch(words, Normalize(lower, frame.content.value)).None?
  }

  /** The meaning of one frame: content that is refused costs no token; clean content costs a token if
      the limiter lets it pass, even if the bus is then unavailable. */
  function Decision(p: Params, words: seq<string>, lower: Casing, table: Buckets, frame: Frame): (Buckets, Verdict) {
    if !Clean(words, lower, frame) then
      (table,
       if frame.content.None? then InvalidJSON
       else if TrimSpace(frame.content.value) == "" then Verdict.EmptyContent
       else if |frame.content.value| > MAX_CONTENT_RUNES then ContentTooLong
       else SensitiveContent)
    else
      var (table', allowed) := Step(p, table, Call(frame.userID, frame.now));
      (table',
       if !allowed then RateLimited
       else if !frame.ready || frame.random.None? then Unavailable
       else
         Accepted(Danmaku(HexEncode(frame.random.value), frame.roomID, frame.userID, frame.content.value, 0,
                          frame.createdAt)))
  }

  /** The content of the frame is fine: there is one, which is neither blank nor longer than 500 characters
      and spells none of the listed words. */
  ghost predicate Fine(listed: seq<string>, lower: Casing, frame: Frame) {
    && frame.content.Some? && !Blank(frame.content.value) && |frame.content.value| <= 500
    && forall i :: 0 <= i < |listed| ==> !Spelled(lower, frame.content.value, listed[i])
  }

  lemma CleanExactlyWhenFine(listed: seq<string>, lower: Casing, frame: Frame)
    requires KeepsSpace(lower)
    ensures Clean(Cleaned(lower, listed), lower, frame) <==> Fine(listed, lower, frame)
  {
    if frame.content.Some? {
      TrimSpaceIsTrimmed(frame.content.value);
      RefusedExactlyWhenWordOccurs(lower, listed, frame.content.value);
    }
  }

  /** Why content is refused: the first check it fails, at no cost of tokens. */
  lemma RefusedContentAnswers(p: Params, listed: seq<string>, lower: Casing, table: Buckets, frame: Frame)
    requires KeepsSpace(lower)
    ensures var (table', verdict) := Decision(p, Cleaned(lower, listed), lower, table, frame);
            && (verdict.InvalidJSON? <==> frame.content.None?)
            && (verdict.EmptyContent? <==> frame.content.Some? && Blank(frame.content.value))
            && (verdict.ContentTooLong? <==>
                  frame.content.Some? && !Blank(frame.content.value) && |frame.content.value| > 500)
            && (verdict.SensitiveContent? <==>
                  && frame.content.Some? && !Blank(frame.content.value) && |frame.content.value| <= 500
                  && exists i :: 0 <= i < |listed| && Spelled(lower, frame.content.value, listed[i]))
            && (!Fine(listed, lower, frame) ==> table' == table)
  {
    CleanExactlyWhenFine(listed, lower, frame);
    if frame.content.Some? {
      TrimSpaceIsTrimmed(frame.content.value);
    }
  }

  /** What happens to fine content: it asks the limiter once, for its own user; then the consumer has to be
      ready and a random value to be there; and the message is made of just these parts. */
  lemma FineContentAnswers(p: Params, listed: seq<string>, lower: Casing, table: Buckets, frame: Frame)
    requires KeepsSpace(lower) && Fine(listed, lower, frame)
    ensures var (table', verdict) := Decision(p, Cleaned(lower, listed), lower, table, frame);
            var (limited, allowed) := Step(p, table, Call(frame.userID, frame.now));
            && table' == limited
            && (verdict.RateLimited? <==> !allowed)
            && (verdict.Unavailable? <==> allowed && !(frame.ready && frame.random.Some?))
            && (verdict.Accepted? <==> allowed && frame.ready && frame.random.Some?)
            && (verdict.Accepted? ==>
                  && IsHexOf(verdict.message.messageID, frame.random.value)
                  && verdict.message.roomID == frame.roomID && verdict.message.userID == frame.userID
                  && verdict.message.content == frame.content.value && verdict.message.sequence == 0
                  && verdict.message.createdAt == frame.createdAt)
  {
    CleanExactlyWhenFine(listed, lower, frame);
    if frame.random.Some? {
      HexEncodeIsHex(frame.random.value);
    }
  }

  /** What the gate accepts passes message validation, so that the Kafka consumer never finds it
      poisonous, and carries the client's text unchanged. */
  lemma AcceptedIsValid(p: Params, words: seq<string>, lower: Casing, table: Buckets, frame: Frame)
    requires frame.Valid() && Decision(p, words, lower, table, frame).1.Accepted?
    ensures var d := Decision(p, words, lower, table, frame).1.message;
            && |d.messageID| == 2 * MESSAGE_ID_BYTES && Validate(d).Pass?
            && PartitionConsumer.Classify(Some(d)) == PartitionConsumer.Good(d)
            && Some(d.content) == frame.content && d.roomID == frame.roomID == TrimSpace(d.roomID)
            && |d.content| <= MAX_CONTENT_RUNES
  {
    var id := HexEncode(frame.random.value);
    assert !IsSpace(id[0]);
    TrimSpaceIsTrimmed(id);
    TrimmedIsFixed(frame.roomID);
    TrimmedIsFixed(frame.userID);
  }

  /** The bucket table after a run of frames of any connections. */
  function TableAfter(p: Params, words: seq<string>, lower: Casing, frames: seq<Frame>): Buckets {
    if frames == [] then map[]
    else Decision(p, words, lower, TableAfter(p, words, lower, Init(frames)), Last(frames)).0
  }

  /** The limiter calls of a run: those of its clean frames. */
  function Calls(words: seq<string>, lower: Casing, frames: seq<Frame>): seq<Call> {
    if frames == [] then []
    else
      var before := Calls(words, lower, Init(frames));
      if Clean(words, lower, Last(frames)) then before + [Call(Last(frames).userID, Last(frames).now)] else before
  }

  lemma {:induction false} OnlyCleanFramesReachLimiter(p: Params, words: seq<string>, lower: Casing, frames: seq<Frame>)
    ensures TableAfter(p, words, lower, frames) == After(p, Calls(words, lower, frames))
  {
    if frames != [] {
      OnlyCleanFramesReachLimiter(p, words, lower, Init(frames));
      var before := Calls(words, lower, Init(frames));
      assert forall c :: Init(before + [c]) == before;
    }
  }

  /** A clean frame is held back by the limiter exactly when accepting it would put more than the burst
      plus the earnings of its length into some window of its user, whatever else was refused before. */
  lemma RateLimitedExactlyWhenWindowFull(p: Params, words: seq<string>, lower: Casing, frames: seq<Frame>, frame: Frame)
    requires p.Valid() && frame.Valid() && Clean(words, lower, frame)
    requires Monotone(Calls(words, lower, frames)) && NotBefore(frame.now, Calls(words, lower, frames))
    ensures var admitted := Admitted(p, Calls(words, lower, frames), frame.userID);
            Decision(p, words, lower, TableAfter(p, words, lower, frames), frame).1.RateLimited? <==>
            exists i :: 0 <= i < |admitted| && WouldOverflow(p, admitted, i, frame.now)
  {
    OnlyCleanFramesReachLimiter(p, words, lower, frames);
    RefusedExactlyWhenWindowFull(p, Calls(words, lower, frames), frame.userID, frame.now);
  }
}
