/**
 * The message table and its data-access operations: sending with thread
 * resolution, the read/unread toggles, marking a whole thread read, the
 * whitelisted update, deletion and the unread count.
 */
module MessageDal {
  import opened Common
  import opened PySeq
  import opened Models
  import opened Sorting

  /** The `ValueError`s the message data layer raises. */
  datatype MessageError = SameUser | MessageNotFound

  // --------------------------------------------------------------- lookup

  predicate HasMessage(rows: seq<Message>, id: int) {
    exists k :: 0 <= k < |rows| && rows[k].id == id
  }

  /** `db.session.get(Message, id)`. */
  function FindMessage(rows: seq<Message>, id: int): (r: Option<Message>)
    ensures r.Some? <==> HasMessage(rows, id)
    ensures r.Some? ==> r.value in rows && r.value.id == id
    decreases |rows|
  {
    if |rows| == 0 then None
    else if rows[0].id == id then Some(rows[0])
    else
      var r := FindMessage(rows[1..], id);
      assert HasMessage(rows, id) ==> HasMessage(rows[1..], id) by {
        if HasMessage(rows, id) {
          var k :| 0 <= k < |rows| && rows[k].id == id;
          assert rows[1..][k - 1].id == id;
        }
      }
      assert HasMessage(rows[1..], id) ==> HasMessage(rows, id) by {
        if HasMessage(rows[1..], id) {
          var k :| 0 <= k < |rows[1..]| && rows[1..][k].id == id;
          assert rows[k + 1].id == id;
        }
      }
      r
  }

  /** Primary keys distinct, positive and below the next key to hand out. */
  predicate MessagesValid(rows: seq<Message>, nextId: int) {
    nextId >= 1 &&
    (forall k :: 0 <= k < |rows| ==> 1 <= rows[k].id < nextId) &&
    (forall i, j :: 0 <= i < j < |rows| ==> rows[i].id != rows[j].id)
  }

  /** With distinct keys, the message found is the one at any index holding that key. */
  lemma FindMessageAt(rows: seq<Message>, nextId: int, k: nat)
    requires MessagesValid(rows, nextId) && k < |rows|
    ensures FindMessage(rows, rows[k].id) == Some(rows[k])
  {
    var r := FindMessage(rows, rows[k].id);
    var j :| 0 <= j < |rows| && rows[j] == r.value;
    assert j == k;
  }

  function ReplaceMessage(rows: seq<Message>, id: int, m: Message): (r: seq<Message>)
    ensures |r| == |rows|
    ensures forall k :: 0 <= k < |rows| ==> r[k] == if rows[k].id == id then m else rows[k]
  {
    seq(|rows|, k requires 0 <= k < |rows| => if rows[k].id == id then m else rows[k])
  }

  lemma FilterMessagesValid(rows: seq<Message>, nextId: int, p: Message -> bool)
    requires MessagesValid(rows, nextId)
    ensures MessagesValid(Filter(rows, p), nextId)
  {
    FilterPairwise(rows, p, (a: Message, b: Message) => a.id != b.id);
    var r := Filter(rows, p);
    forall k | 0 <= k < |r| ensures 1 <= r[k].id < nextId {
      assert r[k] in rows;
    }
  }

  // ---------------------------------------------------------------- queries

  predicate Involves(m: Message, userId: int) {
    m.senderId == userId || m.recipientId == userId
  }

  function NewestFirst(m: Message): int { -m.createdAt }
  function OldestFirst(m: Message): int { m.createdAt }

  /**
   * `get_user_conversations`: every message the user sent or received,
   * newest first, then OFFSET and (when truthy) LIMIT.
   */
  function UserConversations(rows: seq<Message>, userId: int, limit: nat, offset: nat): (r: seq<Message>)
    ensures forall k :: 0 <= k < |r| ==> r[k] in rows && Involves(r[k], userId)
    ensures forall i, j :: 0 <= i < j < |r| ==> r[i].createdAt >= r[j].createdAt
    ensures limit > 0 ==> |r| <= limit
    ensures limit == 0 && offset == 0 ==>
      multiset(r) == multiset(Filter(rows, (m: Message) => Involves(m, userId)))
  {
    var hits := Filter(rows, (m: Message) => Involves(m, userId));
    var sorted := SortBy(hits, NewestFirst);
    var page := Page(sorted, offset, limit);
    forall k | 0 <= k < |page| ensures page[k] in hits {
      assert page[k] == sorted[offset + k];
      SortByMembers(hits, NewestFirst, page[k]);
    }
    forall i, j | 0 <= i < j < |page| ensures page[i].createdAt >= page[j].createdAt {
      assert page[i] == sorted[offset + i] && page[j] == sorted[offset + j];
      assert NewestFirst(sorted[offset + i]) <= NewestFirst(sorted[offset + j]);
    }
    assert limit == 0 && offset == 0 ==> page == sorted;
    page
  }

  /** `get_thread_messages`: the thread's messages, oldest first, then OFFSET and LIMIT. */
  function ThreadMessages(rows: seq<Message>, threadId: int, limit: nat, offset: nat): (r: seq<Message>)
    ensures forall k :: 0 <= k < |r| ==> r[k] in rows && r[k].threadId == Some(threadId)
    ensures forall i, j :: 0 <= i < j < |r| ==> r[i].createdAt <= r[j].createdAt
    ensures limit > 0 ==> |r| <= limit
    ensures limit == 0 && offset == 0 ==>
      multiset(r) == multiset(Filter(rows, (m: Message) => m.threadId == Some(threadId)))
  {
    var hits := Filter(rows, (m: Message) => m.threadId == Some(threadId));
    var sorted := SortBy(hits, OldestFirst);
    var page := Page(sorted, offset, limit);
    forall k | 0 <= k < |page| ensures page[k] in hits {
      assert page[k] == sorted[offset + k];
      SortByMembers(hits, OldestFirst, page[k]);
    }
    forall i, j | 0 <= i < j < |page| ensures page[i].createdAt <= page[j].createdAt {
      assert page[i] == sorted[offset + i] && page[j] == sorted[offset + j];
    }
    assert limit == 0 && offset == 0 ==> page == sorted;
    page
  }

  // ------------------------------------------------------ thread resolution

  /** A message between the two users, in either direction. */
  predicate Between(m: Message, a: int, b: int) {
    (m.senderId == a && m.recipientId == b) || (m.senderId == b && m.recipientId == a)
  }

  /** `r` is the earliest row between the two users, or `None` when there is none. */
  predicate IsFirstBetween(rows: seq<Message>, a: int, b: int, r: Option<Message>) {
    (r.None? <==> forall k :: 0 <= k < |rows| ==> !Between(rows[k], a, b)) &&
    (r.Some? ==>
      exists k :: 0 <= k < |rows| && rows[k] == r.value && Between(r.value, a, b) &&
        forall j :: 0 <= j < k ==> !Between(rows[j], a, b))
  }

  lemma FirstBetweenShift(rows: seq<Message>, a: int, b: int, r: Option<Message>)
    requires |rows| > 0 && !Between(rows[0], a, b)
    requires IsFirstBetween(rows[1..], a, b, r)
    ensures IsFirstBetween(rows, a, b, r)
  {
    assert forall k :: 1 <= k < |rows| ==> rows[1..][k - 1] == rows[k];
    if r.Some? {
      var k :| 0 <= k < |rows[1..]| && rows[1..][k] == r.value && Between(r.value, a, b) &&
        forall j :: 0 <= j < k ==> !Between(rows[1..][j], a, b);
      assert rows[k + 1] == r.value;
      forall j | 0 <= j < k + 1 ensures !Between(rows[j], a, b) {
        if j > 0 { assert rows[j] == rows[1..][j - 1]; }
      }
    }
  }

  /** `.filter(<between a and b>).first()`: the earliest such row in table order. */
  function FirstBetween(rows: seq<Message>, a: int, b: int): (r: Option<Message>)
    ensures IsFirstBetween(rows, a, b, r)
    decreases |rows|
  {
    if |rows| == 0 then None
    else if Between(rows[0], a, b) then Some(rows[0])
    else
      var r := FirstBetween(rows[1..], a, b);
      FirstBetweenShift(rows, a, b, r);
      r
  }

  /** Direction does not matter for the conversation lookup. */
  lemma FirstBetweenSymmetric(rows: seq<Message>, a: int, b: int)
    ensures FirstBetween(rows, a, b) == FirstBetween(rows, b, a)
    decreases |rows|
  {
    if |rows| > 0 {
      FirstBetweenSymmetric(rows[1..], a, b);
    }
  }

  /**
   * The thread of a new message: a truthy explicit `thread_id` is kept;
   * otherwise the first message of the conversation gives its own thread
   * when that is truthy, or else its id; with no conversation the argument
   * stays as it was.
   */
  function ResolveThread(rows: seq<Message>, sender: int, recipient: int, threadId: Option<int>): Option<int> {
    if TruthyInt(threadId) then threadId
    else
      var existing := FirstBetween(rows, sender, recipient);
      if existing.Some? && TruthyInt(existing.value.threadId) then existing.value.threadId
      else if existing.Some? then Some(existing.value.id)
      else threadId
  }

  /** Every case of thread resolution, with its exact condition. */
  lemma ResolveThreadCases(rows: seq<Message>, sender: int, recipient: int, threadId: Option<int>)
    ensures TruthyInt(threadId) ==> ResolveThread(rows, sender, recipient, threadId) == threadId
    ensures !TruthyInt(threadId) && FirstBetween(rows, sender, recipient).None? ==>
      ResolveThread(rows, sender, recipient, threadId) == threadId &&
      forall m :: m in rows ==> !Between(m, sender, recipient)
    ensures !TruthyInt(threadId) && FirstBetween(rows, sender, recipient).Some? ==>
      var first := FirstBetween(rows, sender, recipient).value;
      first in rows && Between(first, sender, recipient) &&
      ResolveThread(rows, sender, recipient, threadId) == Some(OrInt(first.threadId, first.id))
  {
  }

  /**
   * Once a conversation exists, every later message between the same two
   * users that is sent without a thread lands in one and the same thread.
   */
  lemma ConversationSharesThread(rows: seq<Message>, a: int, b: int, t1: Option<int>, t2: Option<int>)
    requires !TruthyInt(t1) && !TruthyInt(t2)
    requires exists k :: 0 <= k < |rows| && Between(rows[k], a, b)
    ensures ResolveThread(rows, a, b, t1) == ResolveThread(rows, b, a, t2)
    ensures ResolveThread(rows, a, b, t1).Some?
  {
    FirstBetweenSymmetric(rows, a, b);
  }

  // ------------------------------------------------------ read and unread

  /** `MessageDAL.mark_as_read` on one row: only an unread message is stamped. */
  function ReadOnce(m: Message, now: int): (r: Message)
    ensures r.isRead
    ensures m.isRead ==> r == m
    ensures !m.isRead ==> r == MarkAsRead(m, now)
  {
    if !m.isRead then m.(isRead := true, readAt := Some(now)) else m
  }

  /** `MessageDAL.mark_as_unread` on one row: only a read message is cleared. */
  function UnreadOnce(m: Message): (r: Message)
    ensures !r.isRead
    ensures m.isRead ==> r == m.(isRead := false, readAt := None)
    ensures !m.isRead ==> r == m
  {
    if m.isRead then m.(isRead := false, readAt := None) else m
  }

  /** Marking read twice, at any two times, is marking read once: the first stamp stays. */
  lemma ReadOnceIdempotent(m: Message, t1: int, t2: int)
    ensures ReadOnce(ReadOnce(m, t1), t2) == ReadOnce(m, t1)
    ensures !m.isRead ==> ReadOnce(ReadOnce(m, t1), t2).readAt == Some(t1)
  {
  }

  lemma UnreadOnceIdempotent(m: Message)
    ensures UnreadOnce(UnreadOnce(m)) == UnreadOnce(m)
  {
  }

  /** Unread then read gives a fresh stamp; read then unread clears it; nothing else changes. */
  lemma ReadUnreadRoundTrip(m: Message, now: int)
    ensures ReadOnce(UnreadOnce(m), now) == m.(isRead := true, readAt := Some(now))
    ensures UnreadOnce(ReadOnce(m, now)) == m.(isRead := false, readAt := None)
  {
  }

  /** The model-level `Message.mark_as_read` re-stamps a read message; the data layer does not. */
  lemma ModelReadDiffersFromDal(m: Message, now: int)
    requires m.isRead && m.readAt != Some(now)
    ensures MarkAsRead(m, now) != ReadOnce(m, now)
  {
  }

  // ------------------------------------------------------- thread sweep

  predicate UnreadInThread(m: Message, threadId: int) {
    m.threadId == Some(threadId) && !m.isRead
  }

  /** One row after `mark_thread_as_read`. */
  function ReadIfInThread(m: Message, threadId: int, now: int): (r: Message)
    ensures UnreadInThread(m, threadId) ==> r == m.(isRead := true, readAt := Some(now))
    ensures !UnreadInThread(m, threadId) ==> r == m
  {
    if UnreadInThread(m, threadId) then m.(isRead := true, readAt := Some(now)) else m
  }

  /** The whole table after `mark_thread_as_read`. */
  function ReadThread(rows: seq<Message>, threadId: int, now: int): (r: seq<Message>)
    ensures |r| == |rows|
    ensures forall k :: 0 <= k < |rows| ==> r[k] == ReadIfInThread(rows[k], threadId, now)
  {
    seq(|rows|, k requires 0 <= k < |rows| => ReadIfInThread(rows[k], threadId, now))
  }

  /** The number of unread messages in the thread. */
  function CountUnreadInThread(rows: seq<Message>, threadId: int): nat
    decreases |rows|
  {
    if |rows| == 0 then 0
    else CountUnreadInThread(rows[..|rows| - 1], threadId) + (if UnreadInThread(rows[|rows| - 1], threadId) then 1 else 0)
  }

  /** The count is the size of the source's query `filter_by(thread_id=t, is_read=False)`. */
  lemma {:induction false} CountIsThreadQuery(rows: seq<Message>, threadId: int)
    ensures CountUnreadInThread(rows, threadId) == |Filter(rows, (m: Message) => UnreadInThread(m, threadId))|
    decreases |rows|
  {
    if |rows| > 0 {
      CountIsThreadQuery(rows[..|rows| - 1], threadId);
    }
  }

  /** After the sweep the thread has no unread message, and other threads are untouched. */
  lemma {:induction false} ReadThreadEffect(rows: seq<Message>, threadId: int, now: int)
    ensures CountUnreadInThread(ReadThread(rows, threadId, now), threadId) == 0
    ensures forall k :: 0 <= k < |rows| && rows[k].threadId != Some(threadId) ==> ReadThread(rows, threadId, now)[k] == rows[k]
    ensures forall k :: 0 <= k < |rows| && rows[k].isRead ==> ReadThread(rows, threadId, now)[k] == rows[k]
    decreases |rows|
  {
    if |rows| > 0 {
      assert ReadThread(rows, threadId, now)[..|rows| - 1] == ReadThread(rows[..|rows| - 1], threadId, now);
      ReadThreadEffect(rows[..|rows| - 1], threadId, now);
    }
  }

  /** One turn of the loop over the rows: the row at `i` is marked and counted, the rest stays. */
  lemma ReadStep(rows: seq<Message>, i: nat, threadId: int, now: int)
    requires i < |rows|
    ensures (ReadThread(rows[..i], threadId, now) + rows[i..])[i] == rows[i]
    ensures UnreadInThread(rows[i], threadId) ==>
      (ReadThread(rows[..i], threadId, now) + rows[i..])[i := rows[i].(isRead := true, readAt := Some(now))] ==
      ReadThread(rows[..i + 1], threadId, now) + rows[i + 1..]
    ensures !UnreadInThread(rows[i], threadId) ==>
      ReadThread(rows[..i], threadId, now) + rows[i..] == ReadThread(rows[..i + 1], threadId, now) + rows[i + 1..]
    ensures CountUnreadInThread(rows[..i + 1], threadId) ==
      CountUnreadInThread(rows[..i], threadId) + if UnreadInThread(rows[i], threadId) then 1 else 0
  {
    assert rows[..i + 1][..i] == rows[..i];
  }

  /** The loop of `mark_thread_as_read` over the rows held by the session. */
  method ReadRows(rows: seq<Message>, threadId: int, now: int) returns (read: seq<Message>, count: nat)
    ensures read == ReadThread(rows, threadId, now)
    ensures count == CountUnreadInThread(rows, threadId)
  {
    read := rows;
    count := 0;
    var i := 0;
    while i < |rows|
      invariant 0 <= i <= |rows|
      invariant read == ReadThread(rows[..i], threadId, now) + rows[i..]
      invariant count == CountUnreadInThread(rows[..i], threadId)
    {
      ReadStep(rows, i, threadId, now);
      var m := read[i];
      if m.threadId == Some(threadId) && !m.isRead {
        read := read[i := m.(isRead := true, readAt := Some(now))];
        count := count + 1;
      }
      i := i + 1;
    }
    assert rows[..i] == rows;
  }

  lemma ReadThreadKeepsIds(rows: seq<Message>, nextId: int, threadId: int, now: int)
    requires MessagesValid(rows, nextId)
    ensures MessagesValid(ReadThread(rows, threadId, now), nextId)
  {
  }

  /** A second sweep of the same thread, at any time, changes nothing. */
  lemma ReadThreadIdempotent(rows: seq<Message>, threadId: int, t1: int, t2: int)
    ensures ReadThread(ReadThread(rows, threadId, t1), threadId, t2) == ReadThread(rows, threadId, t1)
  {
  }

  // -------------------------------------------------------- unread count

  predicate UnreadFor(m: Message, userId: int) {
    m.recipientId == userId && !m.isRead
  }

  /** `get_unread_count`: the number of messages to the user that are unread. */
  function UnreadCount(rows: seq<Message>, userId: int): (n: nat)
    ensures n <= |rows|
    decreases |rows|
  {
    if |rows| == 0 then 0
    else UnreadCount(rows[..|rows| - 1], userId) + (if UnreadFor(rows[|rows| - 1], userId) then 1 else 0)
  }

  /** The count is the size of the source's query `filter_by(recipient_id=u, is_read=False)`. */
  lemma {:induction false} UnreadCountIsQuery(rows: seq<Message>, userId: int)
    ensures UnreadCount(rows, userId) == |Filter(rows, (m: Message) => UnreadFor(m, userId))|
    decreases |rows|
  {
    if |rows| > 0 {
      UnreadCountIsQuery(rows[..|rows| - 1], userId);
    }
  }

  /** Replacing a key the table does not hold changes nothing. */
  lemma ReplaceAbsent(rows: seq<Message>, id: int, m: Message)
    requires forall j :: 0 <= j < |rows| ==> rows[j].id != id
    ensures ReplaceMessage(rows, id, m) == rows
  {
  }

  /** Marking one of the user's unread messages read lowers the user's unread count by exactly one. */
  lemma {:induction false} MarkReadLowersUnread(rows: seq<Message>, nextId: int, k: nat, userId: int, now: int)
    requires MessagesValid(rows, nextId) && k < |rows|
    requires UnreadFor(rows[k], userId)
    ensures UnreadCount(ReplaceMessage(rows, rows[k].id, ReadOnce(rows[k], now)), userId) == UnreadCount(rows, userId) - 1
    decreases |rows|
  {
    var id := rows[k].id;
    var m := ReadOnce(rows[k], now);
    var init := rows[..|rows| - 1];
    var after := ReplaceMessage(rows, id, m);
    assert after[..|rows| - 1] == ReplaceMessage(init, id, m);
    assert MessagesValid(init, nextId);
    if k == |rows| - 1 {
      forall j | 0 <= j < |init| ensures init[j].id != id {
        assert rows[j] == init[j];
      }
      ReplaceAbsent(init, id, m);
    } else {
      assert init[k] == rows[k];
      MarkReadLowersUnread(init, nextId, k, userId, now);
      assert rows[|rows| - 1].id != id;
    }
  }

  // ------------------------------------------------------- update_message

  /** `update_message`'s keyword arguments; `OtherMessageField` is a key outside the whitelist. */
  datatype MessageAssign =
    | SetSubject(subject: Option<string>)
    | SetBody(body: string)
    | SetThread(threadId: Option<int>)
    | OtherMessageField(key: string)

  /** The `setattr` loop over the whitelisted keys. */
  function ApplyMessage(m: Message, kw: seq<MessageAssign>): Message
    decreases |kw|
  {
    if |kw| == 0 then m
    else
      var w := ApplyMessage(m, kw[..|kw| - 1]);
      match kw[|kw| - 1]
      case SetSubject(s) => w.(subject := s)
      case SetBody(b) => w.(body := b)
      case SetThread(t) => w.(threadId := t)
      case OtherMessageField(_) => w
  }

  /** The update touches only subject, body and thread: sender, recipient, read state and times stay. */
  lemma {:induction false} ApplyMessageKeeps(m: Message, kw: seq<MessageAssign>)
    ensures ApplyMessage(m, kw) == m.(
      subject := ApplyMessage(m, kw).subject,
      body := ApplyMessage(m, kw).body,
      threadId := ApplyMessage(m, kw).threadId)
    ensures (forall k :: 0 <= k < |kw| ==> kw[k].OtherMessageField?) ==> ApplyMessage(m, kw) == m
    decreases |kw|
  {
    if |kw| > 0 {
      ApplyMessageKeeps(m, kw[..|kw| - 1]);
    }
  }

  // ------------------------------------------------------------------ table

  /** The `messages` table: its rows in insertion order, and the next primary key. */
  class MessageTable {
    var rows: seq<Message>
    var nextId: int

    ghost predicate Valid()
      reads this
    {
      MessagesValid(rows, nextId)
    }

    constructor ()
      ensures Valid() && rows == [] && nextId == 1
    {
      rows := [];
      nextId := 1;
    }

    /** `send_message`: refuses a message to oneself, resolves the thread, stores the message unread. */
    method SendMessage(sender: int, recipient: int, subject: Option<string>, body: string, threadId: Option<int>, now: int)
      returns (r: Result<Message, MessageError>)
      requires Valid()
      modifies this
      ensures Valid()
      ensures sender == recipient ==> r == Err(SameUser) && rows == old(rows) && nextId == old(nextId)
      ensures sender != recipient ==>
        r == Ok(Message(old(nextId), ResolveThread(old(rows), sender, recipient, threadId), sender, recipient,
          subject, body, false, now, None)) &&
        rows == old(rows) + [r.value] && nextId == old(nextId) + 1
    {
      if sender == recipient {
        return Err(SameUser);
      }
      var thread := threadId;
      if !TruthyInt(thread) {
        var existing := FirstBetween(rows, sender, recipient);
        if existing.Some? && TruthyInt(existing.value.threadId) {
          thread := existing.value.threadId;
        } else if existing.Some? {
          thread := Some(existing.value.id);
        }
      }
      var m := Message(nextId, thread, sender, recipient, subject, body, false, now, None);
      rows := rows + [m];
      nextId := nextId + 1;
      return Ok(m);
    }

    /** `mark_as_read`: raises for an unknown id; stamps the message only when it is unread. */
    method MarkAsReadById(id: int, now: int) returns (r: Result<Message, MessageError>)
      requires Valid()
      modifies this
      ensures Valid() && nextId == old(nextId)
      ensures !HasMessage(old(rows), id) ==> r == Err(MessageNotFound) && rows == old(rows)
      ensures HasMessage(old(rows), id) ==>
        r == Ok(ReadOnce(FindMessage(old(rows), id).value, now)) &&
        rows == ReplaceMessage(old(rows), id, r.value)
    {
      var found := FindMessage(rows, id);
      if found.None? {
        return Err(MessageNotFound);
      }
      var m := found.value;
      if !m.isRead {
        m := m.(isRead := true, readAt := Some(now));
      }
      rows := ReplaceMessage(rows, id, m);
      return Ok(m);
    }

    /** `mark_as_unread`: raises for an unknown id; clears the flag and the stamp when it is read. */
    method MarkAsUnreadById(id: int) returns (r: Result<Message, MessageError>)
      requires Valid()
      modifies this
      ensures Valid() && nextId == old(nextId)
      ensures !HasMessage(old(rows), id) ==> r == Err(MessageNotFound) && rows == old(rows)
      ensures HasMessage(old(rows), id) ==>
        r == Ok(UnreadOnce(FindMessage(old(rows), id).value)) &&
        rows == ReplaceMessage(old(rows), id, r.value)
    {
      var found := FindMessage(rows, id);
      if found.None? {
        return Err(MessageNotFound);
      }
      var m := found.value;
      if m.isRead {
        m := m.(isRead := false, readAt := None);
      }
      rows := ReplaceMessage(rows, id, m);
      return Ok(m);
    }

    /** `mark_thread_as_read`: the loop over the thread's unread messages, counting as it goes. */
    method MarkThreadAsRead(threadId: int, now: int) returns (count: nat)
      requires Valid()
      modifies this
      ensures Valid() && nextId == old(nextId)
      ensures rows == ReadThread(old(rows), threadId, now)
      ensures count == CountUnreadInThread(old(rows), threadId)
    {
      var read;
      read, count := ReadRows(rows, threadId, now);
      ReadThreadKeepsIds(rows, nextId, threadId, now);
      rows := read;
    }

    /** `update_message`: raises for an unknown id, else the whitelisted `setattr` loop. */
    method UpdateMessage(id: int, kwargs: seq<MessageAssign>) returns (r: Result<Message, MessageError>)
      requires Valid()
      modifies this
      ensures Valid() && nextId == old(nextId)
      ensures !HasMessage(old(rows), id) ==> r == Err(MessageNotFound) && rows == old(rows)
      ensures HasMessage(old(rows), id) ==>
        r == Ok(ApplyMessage(FindMessage(old(rows), id).value, kwargs)) &&
        rows == ReplaceMessage(old(rows), id, r.value)
    {
      var found := FindMessage(rows, id);
      if found.None? {
        return Err(MessageNotFound);
      }
      var m := found.value;
      var k := 0;
      while k < |kwargs|
        invariant 0 <= k <= |kwargs|
        invariant m == ApplyMessage(found.value, kwargs[..k])
      {
        assert kwargs[..k + 1][..k] == kwargs[..k];
        match kwargs[k] {
          case SetSubject(s) => m := m.(subject := s);
          case SetBody(b) => m := m.(body := b);
          case SetThread(t) => m := m.(threadId := t);
          case OtherMessageField(_) =>
        }
        k := k + 1;
      }
      assert kwargs[..|kwargs|] == kwargs;
      ApplyMessageKeeps(found.value, kwargs);
      rows := ReplaceMessage(rows, id, m);
      return Ok(m);
    }

    /** `delete_message`: `False` when there is no such message, else it is removed. */
    method DeleteMessage(id: int) returns (deleted: bool)
      requires Valid()
      modifies this
      ensures Valid() && nextId == old(nextId)
      ensures deleted == HasMessage(old(rows), id)
      ensures rows == Filter(old(rows), (m: Message) => m.id != id)
      ensures !HasMessage(rows, id)
      ensures !deleted ==> rows == old(rows)
    {
      var found := FindMessage(rows, id);
      FilterMessagesValid(rows, nextId, (m: Message) => m.id != id);
      if found.None? {
        FilterAll(rows, (m: Message) => m.id != id);
        return false;
      }
      rows := Filter(rows, (m: Message) => m.id != id);
      return true;
    }

    /** `get_unread_count`. */
    method GetUnreadCount(userId: int) returns (n: nat)
      ensures n == UnreadCount(rows, userId)
    {
      n := |Filter(rows, (m: Message) => UnreadFor(m, userId))|;
      UnreadCountIsQuery(rows, userId);
    }
  }
}
