/**
  The chat side: the message table with the three MessageRepository
  queries, MessageService.createMessage and markMessagesAsRead as updates
  of that table, and the push payload that sendNotfication builds for a
  new message. Timestamps are instants on one ordered clock; a message may
  carry none.
 */
module Messages {
  import opened Wrappers
  import opened Users
  import opened Ordering

  datatype Message = Message(
    id: string,
    senderId: string,
    receiverId: string,
    content: string,
    timestamp: Option<int>,
    isRead: bool)

  // ---------------------------------------------------------------------
  // findConversationBetweenUsers

  /** "(sender = u1 AND receiver = u2) OR (sender = u2 AND receiver = u1)" */
  predicate Between(m: Message, u1: string, u2: string) {
    (m.senderId == u1 && m.receiverId == u2) || (m.senderId == u2 && m.receiverId == u1)
  }

  /** The rows of the conversation, in table order, that satisfy stamped
      (when wantStamped) or have a null timestamp (otherwise). */
  function ConversationRows(rows: seq<Message>, u1: string, u2: string, wantStamped: bool): (r: seq<Message>)
    ensures forall m :: m in r <==> m in rows && Between(m, u1, u2) && m.timestamp.Some? == wantStamped
    ensures forall m :: multiset(r)[m] == (if Between(m, u1, u2) && m.timestamp.Some? == wantStamped then multiset(rows)[m] else 0)
  {
    if rows == [] then []
    else
      var init, last := rows[..|rows| - 1], rows[|rows| - 1];
      assert rows == init + [last];
      var rest := ConversationRows(init, u1, u2, wantStamped);
      if Between(last, u1, u2) && last.timestamp.Some? == wantStamped then rest + [last] else rest
  }

  /** The sort key of a stamped message. */
  function StampOf(m: Message): int {
    if m.timestamp.Some? then m.timestamp.value else 0
  }

  /** ORDER BY timestamp ASC: stamped messages by time, equal times in
      table order, then the messages without a timestamp (PostgreSQL puts
      NULLs last in ascending order). */
  function Conversation(rows: seq<Message>, u1: string, u2: string): seq<Message> {
    SortBy(ConversationRows(rows, u1, u2, true), StampOf) + ConversationRows(rows, u1, u2, false)
  }

  /** Ascending by timestamp, with the messages without one at the end. */
  predicate TimeOrdered(s: seq<Message>) {
    forall i, j | 0 <= i < j < |s| && s[j].timestamp.Some? ::
      s[i].timestamp.Some? && s[i].timestamp.value <= s[j].timestamp.value
  }

  /** The conversation holds each message between the two users exactly
      as often as the table does, and no other message, in time order. */
  lemma ConversationExact(rows: seq<Message>, u1: string, u2: string)
    ensures var c := Conversation(rows, u1, u2);
      && (forall m :: multiset(c)[m] == (if Between(m, u1, u2) then multiset(rows)[m] else 0))
      && TimeOrdered(c)
  {
    var stamped := ConversationRows(rows, u1, u2, true);
    var unstamped := ConversationRows(rows, u1, u2, false);
    var sorted := SortBy(stamped, StampOf);
    var c := sorted + unstamped;
    SortBySorted(stamped, StampOf);
    forall m ensures multiset(c)[m] == (if Between(m, u1, u2) then multiset(rows)[m] else 0) {
      assert multiset(c) == multiset(sorted) + multiset(unstamped);
    }
    forall i | 0 <= i < |sorted| ensures sorted[i].timestamp.Some? {
      assert sorted[i] in multiset(stamped);
    }
    forall j | 0 <= j < |unstamped| ensures unstamped[j].timestamp.None? {
      assert unstamped[j] in unstamped;
    }
    forall i, j | 0 <= i < j < |c| && c[j].timestamp.Some?
      ensures c[i].timestamp.Some? && c[i].timestamp.value <= c[j].timestamp.value
    {
      assert j < |sorted|;
      assert c[i] == sorted[i] && c[j] == sorted[j];
    }
  }

  /** Swapping the two users selects the same rows. */
  lemma {:induction false} ConversationRowsSymmetric(rows: seq<Message>, u1: string, u2: string, wantStamped: bool)
    ensures ConversationRows(rows, u1, u2, wantStamped) == ConversationRows(rows, u2, u1, wantStamped)
  {
    if rows != [] {
      ConversationRowsSymmetric(rows[..|rows| - 1], u1, u2, wantStamped);
    }
  }

  /** The conversation between u1 and u2 is the conversation between u2
      and u1, in the same order. */
  lemma ConversationSymmetric(rows: seq<Message>, u1: string, u2: string)
    ensures Conversation(rows, u1, u2) == Conversation(rows, u2, u1)
  {
    ConversationRowsSymmetric(rows, u1, u2, true);
    ConversationRowsSymmetric(rows, u1, u2, false);
  }

  // ---------------------------------------------------------------------
  // findUnreadMessagesByReceiverId

  /** "receiverId = :userId AND isRead = false", in table order. */
  function UnreadFor(rows: seq<Message>, userId: string): (r: seq<Message>)
    ensures forall m :: m in r <==> m in rows && m.receiverId == userId && !m.isRead
    ensures |r| <= |rows|
  {
    if rows == [] then []
    else
      var init, last := rows[..|rows| - 1], rows[|rows| - 1];
      assert rows == init + [last];
      var rest := UnreadFor(init, userId);
      if last.receiverId == userId && !last.isRead then rest + [last] else rest
  }

  // ---------------------------------------------------------------------
  // findUserConversationPartners

  predicate Involves(m: Message, userId: string) {
    m.senderId == userId || m.receiverId == userId
  }

  /** "CASE WHEN senderId = :userId THEN receiverId ELSE senderId END" */
  function Counterpart(m: Message, userId: string): string {
    if m.senderId == userId then m.receiverId else m.senderId
  }

  /** SELECT DISTINCT of the counterparts, each at its first occurrence. */
  function Partners(rows: seq<Message>, userId: string): (p: seq<string>)
    ensures forall i, j | 0 <= i < j < |p| :: p[i] != p[j]
    ensures forall x :: x in p <==> exists m | m in rows :: Involves(m, userId) && Counterpart(m, userId) == x
    ensures forall m | m in rows && m.senderId == userId && m.receiverId == userId :: userId in p
  {
    if rows == [] then []
    else
      var init, last := rows[..|rows| - 1], rows[|rows| - 1];
      assert rows == init + [last];
      var rest := Partners(init, userId);
      if Involves(last, userId) && Counterpart(last, userId) !in rest then rest + [Counterpart(last, userId)]
      else rest
  }

  // ---------------------------------------------------------------------
  // createMessage and markMessagesAsRead

  /** createMessage: a missing timestamp becomes now; a present one is kept,
      and nothing else changes. */
  function WithTimestamp(m: Message, now: int): (r: Message)
    ensures m.timestamp.Some? ==> r == m
    ensures m.timestamp.None? ==> r == m.(timestamp := Some(now))
    ensures r.timestamp.Some?
  {
    if m.timestamp.None? then m.(timestamp := Some(now)) else m
  }

  /** The messages markMessagesAsRead(senderId, receiverId) changes: those
      that are unread for the receiver and come from the sender. */
  predicate ToMark(m: Message, senderId: string, receiverId: string) {
    m.receiverId == receiverId && !m.isRead && m.senderId == senderId
  }

  /** The table after markMessagesAsRead: every message from senderId to
      receiverId is read, and every other message is as it was. */
  function MarkedRead(rows: seq<Message>, senderId: string, receiverId: string): (r: seq<Message>)
    ensures |r| == |rows|
    ensures forall i | 0 <= i < |rows| && rows[i].senderId == senderId && rows[i].receiverId == receiverId ::
      r[i] == rows[i].(isRead := true)
    ensures forall i | 0 <= i < |rows| && !(rows[i].senderId == senderId && rows[i].receiverId == receiverId) ::
      r[i] == rows[i]
  {
    seq(|rows|, i requires 0 <= i < |rows| =>
      if ToMark(rows[i], senderId, receiverId) then rows[i].(isRead := true) else rows[i])
  }

  /** After the update no unread message from senderId to receiverId is
      left, and running it again changes nothing. */
  lemma MarkedReadIdempotent(rows: seq<Message>, senderId: string, receiverId: string)
    ensures forall m | m in UnreadFor(MarkedRead(rows, senderId, receiverId), receiverId) :: m.senderId != senderId
    ensures MarkedRead(MarkedRead(rows, senderId, receiverId), senderId, receiverId)
      == MarkedRead(rows, senderId, receiverId)
  {
    var once := MarkedRead(rows, senderId, receiverId);
    forall m | m in UnreadFor(once, receiverId) ensures m.senderId != senderId {
      var i :| 0 <= i < |once| && once[i] == m;
    }
  }

  /** The message table as the repository holds it. */
  class MessageTable {
    var rows: seq<Message>

    constructor (initial: seq<Message>)
      ensures rows == initial
    {
      rows := initial;
    }

    function FindConversationBetweenUsers(userId1: string, userId2: string): seq<Message>
      reads this
    {
      Conversation(rows, userId1, userId2)
    }

    function FindUnreadMessagesByReceiverId(userId: string): seq<Message>
      reads this
    {
      UnreadFor(rows, userId)
    }

    function FindUserConversationPartners(userId: string): seq<string>
      reads this
    {
      Partners(rows, userId)
    }

    /** createMessage: stamps the message if it has no timestamp and saves it. */
    method CreateMessage(m: Message, now: int) returns (saved: Message)
      modifies this
      ensures saved == WithTimestamp(m, now)
      ensures rows == old(rows) + [saved]
    {
      saved := m;
      if saved.timestamp.None? {
        saved := saved.(timestamp := Some(now));
      }
      rows := rows + [saved];
    }

    /** markMessagesAsRead: walks the table and saves each unread message
        from senderId to receiverId as read. */
    method MarkMessagesAsRead(senderId: string, receiverId: string)
      modifies this
      ensures rows == MarkedRead(old(rows), senderId, receiverId)
    {
      var i := 0;
      while i < |rows|
        invariant 0 <= i <= |rows| == |old(rows)|
        invariant rows[..i] == MarkedRead(old(rows)[..i], senderId, receiverId)
        invariant forall k | i <= k < |rows| :: rows[k] == old(rows)[k]
      {
        if ToMark(rows[i], senderId, receiverId) {
          rows := rows[i := rows[i].(isRead := true)];
        }
        i := i + 1;
      }
      assert old(rows)[..i] == old(rows);
    }
  }

  // ---------------------------------------------------------------------
  // sendNotfication

  /** The push request built for a new message: the users to notify (the
      service hands it User objects, not ids), title, body and data. */
  datatype ChatPush = ChatPush(
    recipients: seq<User>,
    title: string,
    body: string,
    data: map<string, string>)

  const NewMessageTitlePrefix := "New Message from "

  /**
    sendNotfication: looks up receiver and sender with one findAllById and
    takes the first row found for each. Nothing is sent unless both are
    found; otherwise only the receiver is notified, titled with the
    sender's name, with the message text as body and a data map naming the
    message type and both parties.
   */
  function NewMessagePush(users: seq<User>, content: string, senderId: string, receiverId: string): (push: Option<ChatPush>)
    ensures push.Some? <==> (exists u | u in users :: u.id == receiverId) && (exists u | u in users :: u.id == senderId)
    ensures push.Some? ==>
      var p := push.value;
      && |p.recipients| == 1 && p.recipients[0] in users && p.recipients[0].id == receiverId
      && (exists s | s in users && s.id == senderId ::
            && p.title == NewMessageTitlePrefix + s.name
            && p.data == map["type" := "NEW_MESSAGE", "senderId" := senderId,
                             "receiverId" := receiverId, "senderName" := s.name])
      && p.body == content
      && p.data.Keys == {"type", "senderId", "receiverId", "senderName"}
  {
    var found := RowsWithIds(users, [receiverId, senderId]);
    var receiver := RowWithId(found, receiverId);
    var sender := RowWithId(found, senderId);
    if receiver.Some? && sender.Some? then
      Some(ChatPush(
        [receiver.value],
        NewMessageTitlePrefix + sender.value.name,
        content,
        map["type" := "NEW_MESSAGE", "senderId" := sender.value.id,
            "receiverId" := receiver.value.id, "senderName" := sender.value.name]))
    else
      None
  }
}
