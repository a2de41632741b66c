/** The message passed between gateway, bus and rooms, after internal/message/message.go. */
module Message {
  import opened GoStrings
  import opened Wrappers

  datatype Error = EmptyMessageID | EmptyRoomID | EmptyUserID | EmptyContent | EmptyCreatedAt

  /** `createdAt` counts nanoseconds; zero is Go's zero time. */
  datatype Danmaku = Danmaku(messageID: string, roomID: string, userID: string, content: string,
                             sequence: nat, createdAt: int)

  const ZERO_TIME := 0

  /** The first missing field in the source's order, if any. */
  function Validate(d: Danmaku): Outcome<Error> {
    if TrimSpace(d.messageID) == "" then Fail(EmptyMessageID)
    else if TrimSpace(d.roomID) == "" then Fail(EmptyRoomID)
    else if TrimSpace(d.userID) == "" then Fail(EmptyUserID)
    else if TrimSpace(d.content) == "" then Fail(EmptyContent)
    else if d.createdAt == ZERO_TIME then Fail(EmptyCreatedAt)
    else Pass
  }

  /** A message is valid exactly when no text field is blank and the time is set. */
  lemma ValidExactlyWhenComplete(d: Danmaku)
    ensures Validate(d).Pass? <==>
              !Blank(d.messageID) && !Blank(d.roomID) && !Blank(d.userID) && !Blank(d.content) && d.createdAt != ZERO_TIME
    ensures Validate(d) == Fail(EmptyMessageID) <==> Blank(d.messageID)
    ensures Validate(d) == Fail(EmptyRoomID) <==> !Blank(d.messageID) && Blank(d.roomID)
    ensures Validate(d) == Fail(EmptyUserID) <==> !Blank(d.messageID) && !Blank(d.roomID) && Blank(d.userID)
    ensures Validate(d) == Fail(EmptyContent) <==>
              !Blank(d.messageID) && !Blank(d.roomID) && !Blank(d.userID) && Blank(d.content)
  {
    TrimSpaceIsTrimmed(d.messageID);
    TrimSpaceIsTrimmed(d.roomID);
    TrimSpaceIsTrimmed(d.userID);
    TrimSpaceIsTrimmed(d.content);
  }
}
