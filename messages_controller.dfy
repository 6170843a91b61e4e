/**
 * The message endpoints: the conversation list (one entry per partner), the
 * thread and single-message views with their membership checks, sending,
 * marking read and deletion.
 */
module MessagesController {
  import opened Common
  import opened PySeq
  import opened Strings
  import opened Models
  import opened MessageDal
  import opened Http

  const DEFAULT_LIST_LIMIT := 20
  const PREVIEW_LENGTH := 100
  const MAX_BODY_LENGTH := 5000

  // ------------------------------------------------------ list_messages

  /** The other party of a message, seen from `me`. */
  function Partner(m: Message, me: int): int {
    if m.senderId == me then m.recipientId else m.senderId
  }

  /**
   * One entry of the conversation list, as the handler evidently means to
   * build it: the partner's display name is the user's `full_name` (the
   * handler reads `name`, which `User` lacks; see `CollectAsWritten`), and
   * `otherUserId` is the key the partner was looked up by.
   */
  datatype ConversationEntry = ConversationEntry(
    threadId: int,
    otherUserId: int,
    otherName: string,
    otherEmail: string,
    lastMessage: string,
    isRead: bool,
    createdAt: int,
    isFromMe: bool)

  /** The entry built from a message and its partner's user row. */
  function EntryFor(m: Message, me: int, other: User): (e: ConversationEntry)
    ensures e.threadId == OrInt(m.threadId, m.id)
    ensures e.otherUserId == Partner(m, me) && e.otherEmail == other.email
    ensures e.otherName == other.fullName
    ensures e.lastMessage == Take(m.body, PREVIEW_LENGTH) && |e.lastMessage| <= PREVIEW_LENGTH
    ensures e.isFromMe <==> m.senderId == me
    ensures e.isRead <==> m.isRead || m.senderId == me
    ensures e.createdAt == m.createdAt
  {
    ConversationEntry(OrInt(m.threadId, m.id), Partner(m, me), other.fullName, other.email,
      Take(m.body, PREVIEW_LENGTH), m.isRead || m.senderId == me, m.createdAt, m.senderId == me)
  }

  /** The loop's two variables: the partners seen so far and the entries built so far. */
  datatype ListState = ListState(seen: set<int>, entries: seq<ConversationEntry>)

  /** One pass of the loop body: a seen partner is skipped; an unknown user is marked seen but skipped. */
  function ListStep(st: ListState, m: Message, me: int, users: map<int, User>): ListState {
    var other := Partner(m, me);
    if other in st.seen then st
    else if other !in users then ListState(st.seen + {other}, st.entries)
    else ListState(st.seen + {other}, st.entries + [EntryFor(m, me, users[other])])
  }

  /** The state after the loop has run over `msgs`. */
  function Collect(msgs: seq<Message>, me: int, users: map<int, User>): ListState
    decreases |msgs|
  {
    if |msgs| == 0 then ListState({}, [])
    else ListStep(Collect(msgs[..|msgs| - 1], me, users), msgs[|msgs| - 1], me, users)
  }

  /** `msgs[k]` is the first message with its partner. */
  predicate FirstWithPartner(msgs: seq<Message>, me: int, k: int) {
    0 <= k < |msgs| && forall j :: 0 <= j < k ==> Partner(msgs[j], me) != Partner(msgs[k], me)
  }

  /** `e` is the entry of the first message with some partner who exists as a user. */
  predicate FromFirstMessage(msgs: seq<Message>, me: int, users: map<int, User>, e: ConversationEntry) {
    exists k :: 0 <= k < |msgs| && FirstWithPartner(msgs, me, k) && Partner(msgs[k], me) in users &&
      e == EntryFor(msgs[k], me, users[Partner(msgs[k], me)])
  }

  /** Every partner of a message is marked seen, whether or not the user exists. */
  lemma {:induction false} CollectSeen(msgs: seq<Message>, me: int, users: map<int, User>)
    ensures forall p :: p in Collect(msgs, me, users).seen <==> exists k :: 0 <= k < |msgs| && Partner(msgs[k], me) == p
    decreases |msgs|
  {
    if |msgs| > 0 {
      var init := msgs[..|msgs| - 1];
      var last := |msgs| - 1;
      CollectSeen(init, me, users);
      var after := Collect(msgs, me, users).seen;
      assert after == Collect(init, me, users).seen + {Partner(msgs[last], me)};
      forall p | p in after ensures exists k :: 0 <= k < |msgs| && Partner(msgs[k], me) == p {
        if p != Partner(msgs[last], me) {
          var k :| 0 <= k < |init| && Partner(init[k], me) == p;
          assert msgs[k] == init[k];
        }
      }
      forall k | 0 <= k < |msgs| ensures Partner(msgs[k], me) in after {
        if k < last {
          assert init[k] == msgs[k];
        }
      }
    }
  }

  /**
   * Each entry comes from the first message with its partner, and the partner
   * exists; the entries' partners are all seen.
   */
  lemma {:induction false} CollectSound(msgs: seq<Message>, me: int, users: map<int, User>)
    ensures forall i :: 0 <= i < |Collect(msgs, me, users).entries| ==>
      Collect(msgs, me, users).entries[i].otherUserId in Collect(msgs, me, users).seen
    ensures forall i :: 0 <= i < |Collect(msgs, me, users).entries| ==>
      FromFirstMessage(msgs, me, users, Collect(msgs, me, users).entries[i])
    decreases |msgs|
  {
    if |msgs| > 0 {
      var init := msgs[..|msgs| - 1];
      var m := msgs[|msgs| - 1];
      var before := Collect(init, me, users);
      var after := Collect(msgs, me, users);
      CollectSound(init, me, users);
      CollectSeen(init, me, users);
      forall i | 0 <= i < |after.entries| ensures after.entries[i].otherUserId in after.seen {
        if i < |before.entries| {
          assert after.entries[i] == before.entries[i];
        }
      }
      forall i | 0 <= i < |after.entries| ensures FromFirstMessage(msgs, me, users, after.entries[i]) {
        if i < |before.entries| {
          assert after.entries[i] == before.entries[i];
          assert FromFirstMessage(init, me, users, before.entries[i]);
          var k :| 0 <= k < |init| && FirstWithPartner(init, me, k) && Partner(init[k], me) in users &&
            before.entries[i] == EntryFor(init[k], me, users[Partner(init[k], me)]);
          assert msgs[k] == init[k];
          assert forall j :: 0 <= j < k ==> msgs[j] == init[j];
          assert FirstWithPartner(msgs, me, k);
        } else {
          var last := |msgs| - 1;
          assert Partner(m, me) !in before.seen;
          forall j | 0 <= j < last ensures Partner(msgs[j], me) != Partner(m, me) {
            assert msgs[j] == init[j];
          }
          assert FirstWithPartner(msgs, me, last);
          assert Partner(m, me) in users;
          assert after.entries[i] == EntryFor(msgs[last], me, users[Partner(msgs[last], me)]);
        }
      }
    }
  }

  /** Each partner appears at most once in the list. */
  lemma {:induction false} CollectDistinct(msgs: seq<Message>, me: int, users: map<int, User>)
    ensures forall i, j :: 0 <= i < j < |Collect(msgs, me, users).entries| ==>
      Collect(msgs, me, users).entries[i].otherUserId != Collect(msgs, me, users).entries[j].otherUserId
    decreases |msgs|
  {
    if |msgs| > 0 {
      var init := msgs[..|msgs| - 1];
      CollectDistinct(init, me, users);
      CollectSound(init, me, users);
    }
  }

  /** Every partner that exists as a user is represented by the first message with that partner. */
  lemma {:induction false} CollectComplete(msgs: seq<Message>, me: int, users: map<int, User>)
    ensures forall k :: FirstWithPartner(msgs, me, k) && Partner(msgs[k], me) in users ==>
      EntryFor(msgs[k], me, users[Partner(msgs[k], me)]) in Collect(msgs, me, users).entries
    decreases |msgs|
  {
    if |msgs| > 0 {
      var init := msgs[..|msgs| - 1];
      CollectComplete(init, me, users);
      CollectSeen(init, me, users);
      forall k | FirstWithPartner(msgs, me, k) && Partner(msgs[k], me) in users
        ensures EntryFor(msgs[k], me, users[Partner(msgs[k], me)]) in Collect(msgs, me, users).entries
      {
        if k < |init| {
          assert msgs[k] == init[k];
          assert forall j :: 0 <= j < k ==> msgs[j] == init[j];
          assert FirstWithPartner(init, me, k);
        } else {
          assert k == |init|;
          assert Partner(msgs[k], me) !in Collect(init, me, users).seen by {
            forall j | 0 <= j < |init| ensures Partner(init[j], me) != Partner(msgs[k], me) {
              assert init[j] == msgs[j];
            }
          }
        }
      }
    }
  }

  /** A partner who is not a user never appears in the list. */
  lemma MissingUsersSkipped(msgs: seq<Message>, me: int, users: map<int, User>)
    ensures forall i :: 0 <= i < |Collect(msgs, me, users).entries| ==>
      Collect(msgs, me, users).entries[i].otherUserId in users
  {
    CollectSound(msgs, me, users);
  }

  /** `GET /messages`: the user's messages newest first (one page of them), one entry per partner. */
  method ListMessages(table: MessageTable, me: int, users: map<int, User>, limit: nat, offset: nat)
    returns (entries: seq<ConversationEntry>)
    ensures entries == Collect(UserConversations(table.rows, me, limit, offset), me, users).entries
    ensures forall i, j :: 0 <= i < j < |entries| ==> entries[i].otherUserId != entries[j].otherUserId
    ensures forall i :: 0 <= i < |entries| ==> entries[i].otherUserId in users
  {
    entries := CollectEntries(UserConversations(table.rows, me, limit, offset), me, users);
  }

  /** The loop of `get_conversations` over the page of messages. */
  method CollectEntries(conversations: seq<Message>, me: int, users: map<int, User>) returns (entries: seq<ConversationEntry>)
    ensures entries == Collect(conversations, me, users).entries
    ensures forall i, j :: 0 <= i < j < |entries| ==> entries[i].otherUserId != entries[j].otherUserId
    ensures forall i :: 0 <= i < |entries| ==> entries[i].otherUserId in users
  {
    var seen: set<int> := {};
    entries := [];
    var i := 0;
    while i < |conversations|
      invariant 0 <= i <= |conversations|
      invariant ListState(seen, entries) == Collect(conversations[..i], me, users)
    {
      assert conversations[..i + 1][..i] == conversations[..i];
      var msg := conversations[i];
      var other := if msg.senderId == me then msg.recipientId else msg.senderId;
      if other in seen {
        i := i + 1;
        continue;
      }
      seen := seen + {other};
      if other !in users {
        i := i + 1;
        continue;
      }
      entries := entries + [EntryFor(msg, me, users[other])];
      i := i + 1;
    }
    assert conversations[..i] == conversations;
    CollectDistinct(conversations, me, users);
    MissingUsersSkipped(conversations, me, users);
  }

  /**
   * The loop as written: building an entry reads `other_user.name`, an
   * attribute `User` does not have, so the first message whose partner
   * exists raises `AttributeError` (`None`). The loop finishes only when no
   * partner on the page exists, and then it has appended nothing.
   */
  function CollectAsWritten(msgs: seq<Message>, me: int, users: map<int, User>): Option<ListState>
    decreases |msgs|
  {
    if |msgs| == 0 then Some(ListState({}, []))
    else
      var before := CollectAsWritten(msgs[..|msgs| - 1], me, users);
      var m := msgs[|msgs| - 1];
      if before.None? then None
      else if Partner(m, me) in before.value.seen then before
      else if Partner(m, me) !in users then Some(ListState(before.value.seen + {Partner(m, me)}, []))
      else None
  }

  /**
   * The written loop raises exactly when some message on the page has a
   * partner who exists; when it does not raise, it has seen the same
   * partners as the intended loop, its list is empty, and so is the intended one.
   */
  lemma {:induction false} CollectAsWrittenRaises(msgs: seq<Message>, me: int, users: map<int, User>)
    ensures CollectAsWritten(msgs, me, users).None? <==> exists k :: 0 <= k < |msgs| && Partner(msgs[k], me) in users
    ensures CollectAsWritten(msgs, me, users).Some? ==>
      CollectAsWritten(msgs, me, users).value == ListState(Collect(msgs, me, users).seen, []) &&
      Collect(msgs, me, users).entries == []
    ensures CollectAsWritten(msgs, me, users).None? ==> Collect(msgs, me, users).entries != []
    decreases |msgs|
  {
    if |msgs| > 0 {
      var init := msgs[..|msgs| - 1];
      var m := msgs[|msgs| - 1];
      CollectAsWrittenRaises(init, me, users);
      CollectSeen(init, me, users);
      forall k | 0 <= k < |init| ensures msgs[k] == init[k] { }
      var before := CollectAsWritten(init, me, users);
      if before.Some? && Partner(m, me) in before.value.seen {
        var j :| 0 <= j < |init| && Partner(init[j], me) == Partner(m, me);
        assert Partner(m, me) !in users;
      }
    }
  }

  /**
   * `GET /messages` as written: the `AttributeError` is not a
   * `SQLAlchemyError`, so it escapes the handler and the application's error
   * handler answers 500; a page without an existing partner lists nothing.
   */
  function ListMessagesAsWritten(rows: seq<Message>, me: int, users: map<int, User>, limit: nat, offset: nat): (r: Result<seq<ConversationEntry>, Status>)
    ensures var page := UserConversations(rows, me, limit, offset);
      r.Err? <==> exists k :: 0 <= k < |page| && Partner(page[k], me) in users
    ensures r.Err? ==> r.error == ServerError500
    ensures r.Ok? ==> r.value == [] == Collect(UserConversations(rows, me, limit, offset), me, users).entries
  {
    var page := UserConversations(rows, me, limit, offset);
    CollectAsWrittenRaises(page, me, users);
    match CollectAsWritten(page, me, users)
    case None => Err(ServerError500)
    case Some(st) => Ok(st.entries)
  }

  /**
   * User 1 holds one message to user 2, who exists: the written handler
   * answers 500, where the intended listing has one entry for user 2.
   */
  lemma ListingRaisesForExistingPartner()
    ensures var m := Message(7, None, 1, 2, Some("Hi"), "Hello", false, 0, None);
      var users := map[2 := User(2, "bob", "bob@example.edu", "Bob Lee", ROLE_STUDENT, true)];
      CollectAsWritten([m], 1, users).None? &&
      Collect([m], 1, users).entries == [EntryFor(m, 1, users[2])]
  {
    var m := Message(7, None, 1, 2, Some("Hi"), "Hello", false, 0, None);
    assert [m][..0] == [];
  }

  /** The first message with a partner is the newest message with that partner on the page. */
  lemma FirstIsNewest(rows: seq<Message>, me: int, limit: nat, offset: nat, k: nat, j: nat)
    requires var page := UserConversations(rows, me, limit, offset);
      FirstWithPartner(page, me, k) && j < |page| && Partner(page[j], me) == Partner(page[k], me)
    ensures UserConversations(rows, me, limit, offset)[k].createdAt >= UserConversations(rows, me, limit, offset)[j].createdAt
  {
  }

  /** A user who once failed the lookup stays hidden, even if a later message on the page names them. */
  lemma MissingUserStaysSkipped(msgs: seq<Message>, me: int, users: map<int, User>, m: Message)
    requires Partner(m, me) in Collect(msgs, me, users).seen
    ensures Collect(msgs + [m], me, users) == Collect(msgs, me, users)
  {
    assert (msgs + [m])[..|msgs|] == msgs;
  }

  // --------------------------------------------------------- get_thread

  /** The set of senders and recipients of `ms`. */
  function Participants(ms: seq<Message>): (ps: set<int>)
    ensures forall u :: u in ps <==> exists k :: 0 <= k < |ms| && Involves(ms[k], u)
  {
    (set k | 0 <= k < |ms| :: ms[k].senderId) + (set k | 0 <= k < |ms| :: ms[k].recipientId)
  }

  /** The loop of `get_thread` that gathers the thread's participants. */
  method CollectParticipants(ms: seq<Message>) returns (ps: set<int>)
    ensures ps == Participants(ms)
  {
    ps := {};
    var i := 0;
    while i < |ms|
      invariant 0 <= i <= |ms|
      invariant forall u :: u in ps <==> exists k :: 0 <= k < i && Involves(ms[k], u)
    {
      ps := ps + {ms[i].senderId, ms[i].recipientId};
      i := i + 1;
    }
    assert forall u :: u in ps <==> u in Participants(ms);
  }

  /** The guard chain of `get_thread`: 404 for an empty thread, 403 for an outsider. */
  function ThreadDecision(rows: seq<Message>, me: int, threadId: int): Status {
    var ms := ThreadMessages(rows, threadId, 0, 0);
    if |ms| == 0 then NotFound404
    else if me !in Participants(ms) then Forbidden403
    else Ok200
  }

  /** The thread view's outcomes, each with its exact condition on the table. */
  lemma ThreadDecisionCases(rows: seq<Message>, me: int, threadId: int)
    ensures ThreadDecision(rows, me, threadId) == NotFound404 <==>
      forall k :: 0 <= k < |rows| ==> rows[k].threadId != Some(threadId)
    ensures ThreadDecision(rows, me, threadId) == Forbidden403 <==>
      (exists k :: 0 <= k < |rows| && rows[k].threadId == Some(threadId)) &&
      forall k :: 0 <= k < |rows| && rows[k].threadId == Some(threadId) ==> !Involves(rows[k], me)
    ensures ThreadDecision(rows, me, threadId) == Ok200 <==>
      exists k :: 0 <= k < |rows| && rows[k].threadId == Some(threadId) && Involves(rows[k], me)
  {
    var ms := ThreadMessages(rows, threadId, 0, 0);
    ThreadMessagesMembers(rows, threadId);
    ThreadGuards(rows, ms, me, threadId);
  }

  /** The unpaged thread query returns exactly the thread's rows. */
  lemma ThreadMessagesMembers(rows: seq<Message>, threadId: int)
    ensures forall x :: x in ThreadMessages(rows, threadId, 0, 0) <==> x in rows && x.threadId == Some(threadId)
  {
    var ms := ThreadMessages(rows, threadId, 0, 0);
    var hits := Filter(rows, (m: Message) => m.threadId == Some(threadId));
    assert multiset(ms) == multiset(hits);
    forall x ensures x in ms <==> x in rows && x.threadId == Some(threadId) {
      assert x in ms <==> x in multiset(ms);
      assert x in hits <==> x in multiset(hits);
    }
  }

  /** The two guards of `get_thread` in terms of the rows, for any list holding exactly the thread's rows. */
  lemma ThreadGuards(rows: seq<Message>, ms: seq<Message>, me: int, threadId: int)
    requires forall x :: x in ms <==> x in rows && x.threadId == Some(threadId)
    ensures |ms| == 0 <==> forall k :: 0 <= k < |rows| ==> rows[k].threadId != Some(threadId)
    ensures me in Participants(ms) <==>
      exists k :: 0 <= k < |rows| && rows[k].threadId == Some(threadId) && Involves(rows[k], me)
  {
    if exists k :: 0 <= k < |rows| && rows[k].threadId == Some(threadId) {
      var k :| 0 <= k < |rows| && rows[k].threadId == Some(threadId);
      assert rows[k] in ms;
    }
    if exists k :: 0 <= k < |rows| && rows[k].threadId == Some(threadId) && Involves(rows[k], me) {
      var k :| 0 <= k < |rows| && rows[k].threadId == Some(threadId) && Involves(rows[k], me);
      assert rows[k] in ms;
    }
    if me in Participants(ms) {
      var k :| 0 <= k < |ms| && Involves(ms[k], me);
      assert ms[k] in rows;
    }
    if |ms| > 0 {
      assert ms[0] in rows;
    }
  }


  /** `GET /messages/thread/<id>`: the thread's messages, oldest first, for a participant. */
  method GetThread(table: MessageTable, me: int, threadId: int) returns (status: Status, messages: seq<Message>)
    ensures status == ThreadDecision(table.rows, me, threadId)
    ensures status == Ok200 ==> messages == ThreadMessages(table.rows, threadId, 0, 0)
    ensures status != Ok200 ==> messages == []
  {
    var ms := ThreadMessages(table.rows, threadId, 0, 0);
    if |ms| == 0 {
      return NotFound404, [];
    }
    var ps := CollectParticipants(ms);
    if me !in ps {
      return Forbidden403, [];
    }
    return Ok200, ms;
  }

  // -------------------------------------------------------- get_message

  /** The guard chain of `get_message`: only the sender or the recipient may read it. */
  function GetMessageDecision(rows: seq<Message>, me: int, id: int): (s: Status)
    ensures s == NotFound404 <==> !HasMessage(rows, id)
    ensures s == Forbidden403 <==> HasMessage(rows, id) && !Involves(FindMessage(rows, id).value, me)
    ensures s == Ok200 <==> HasMessage(rows, id) && Involves(FindMessage(rows, id).value, me)
  {
    var found := FindMessage(rows, id);
    if found.None? then NotFound404
    else if found.value.senderId != me && found.value.recipientId != me then Forbidden403
    else Ok200
  }

  // ----------------------------------------------------- create_message

  /** The JSON `body` value: absent (read as `''`), something without `.strip()` (including `null`), or a string. */
  datatype BodyValue = BodyAbsent | BodyNotText | BodyText(s: string)

  /** The JSON `subject` value: absent (read as `'Message'`), `null`, or a string. */
  datatype SubjectValue = SubjectAbsent | SubjectNull | SubjectText(s: string)

  /** The JSON body of a send request; `None` stands for no body or an empty one. */
  datatype CreateMessageRequest = CreateMessageRequest(
    recipientId: Option<int>, body: BodyValue, threadId: Option<int>, subject: SubjectValue)

  datatype CreateMessageOutcome =
    | CreateMessageRejected(status: Status)
    | CreateMessageAccepted(recipientId: int, subject: Option<string>, body: string, threadId: Option<int>)

  /** `data.get('body', '').strip()`; `None` when `.strip()` raises, which no handler catches. */
  function StrippedBody(b: BodyValue): (r: Option<string>)
    ensures r.None? <==> b.BodyNotText?
    ensures b.BodyAbsent? ==> r == Some("")
    ensures b.BodyText? ==> r == Some(Strip(b.s))
  {
    match b
    case BodyAbsent => Some("")
    case BodyNotText => None
    case BodyText(s) => Some(Strip(s))
  }

  /** `data.get('subject', 'Message')`. */
  function SubjectOf(v: SubjectValue): (r: Option<string>)
    ensures v.SubjectAbsent? ==> r == Some("Message")
    ensures v.SubjectNull? ==> r.None?
    ensures v.SubjectText? ==> r == Some(v.s)
  {
    match v
    case SubjectAbsent => Some("Message")
    case SubjectNull => None
    case SubjectText(s) => Some(s)
  }

  /** The guard chain of `create_message` up to the call that stores the message. */
  function CreateMessageDecision(users: map<int, User>, body: Option<CreateMessageRequest>): CreateMessageOutcome {
    if body.None? then CreateMessageRejected(BadRequest400)
    else
      var req := body.value;
      var text := StrippedBody(req.body);
      if text.None? then CreateMessageRejected(ServerError500)
      else if !TruthyInt(req.recipientId) then CreateMessageRejected(BadRequest400)
      else if text.value == "" then CreateMessageRejected(BadRequest400)
      else if |text.value| > MAX_BODY_LENGTH then CreateMessageRejected(BadRequest400)
      else if req.recipientId.value !in users then CreateMessageRejected(NotFound404)
      else CreateMessageAccepted(req.recipientId.value, SubjectOf(req.subject), text.value, req.threadId)
  }

  /** What an accepted send carries: an existing recipient and a stripped body of 1..5000 characters. */
  lemma CreateMessageAccepts(users: map<int, User>, body: Option<CreateMessageRequest>)
    requires CreateMessageDecision(users, body).CreateMessageAccepted?
    ensures var out := CreateMessageDecision(users, body);
      body.Some? && body.value.body.BodyText? &&
      out.body == Strip(body.value.body.s) && 0 < |out.body| <= MAX_BODY_LENGTH &&
      out.recipientId in users && out.recipientId != 0 && body.value.recipientId == Some(out.recipientId) &&
      out.threadId == body.value.threadId
  {
  }

  /** The rejections of `create_message`, each with its exact condition, in the source's order. */
  lemma CreateMessageGuardOrder(users: map<int, User>, req: CreateMessageRequest)
    ensures var out := CreateMessageDecision(users, Some(req));
      var text := StrippedBody(req.body);
      (out == CreateMessageRejected(ServerError500) <==> req.body.BodyNotText?) &&
      (out == CreateMessageRejected(NotFound404) <==>
        text.Some? && TruthyInt(req.recipientId) && 0 < |text.value| <= MAX_BODY_LENGTH && req.recipientId.value !in users) &&
      (out == CreateMessageRejected(BadRequest400) <==>
        text.Some? && (!TruthyInt(req.recipientId) || text.value == "" || |text.value| > MAX_BODY_LENGTH))
  {
  }

  /** A body of spaces is refused: the length and emptiness tests see the stripped text. */
  lemma BlankBodyRejected(users: map<int, User>, r: int, s: string, t: Option<int>, subj: SubjectValue)
    requires forall k :: 0 <= k < |s| ==> IsSpace(s[k])
    requires r != 0
    ensures CreateMessageDecision(users, Some(CreateMessageRequest(Some(r), BodyText(s), t, subj))) == CreateMessageRejected(BadRequest400)
  {
    StripAllSpace(s);
  }

  /** `POST /messages`: run the guard chain, then send; a message to oneself is refused with 400. */
  method CreateMessageEndpoint(table: MessageTable, caller: User, users: map<int, User>, body: Option<CreateMessageRequest>, now: int)
    returns (status: Status, created: Option<Message>, threadOut: Option<int>)
    requires table.Valid()
    modifies table
    ensures table.Valid()
    ensures CreateMessageDecision(users, body).CreateMessageRejected? ==>
      status == CreateMessageDecision(users, body).status && created.None? && table.rows == old(table.rows)
    ensures CreateMessageDecision(users, body).CreateMessageAccepted? && CreateMessageDecision(users, body).recipientId == caller.id ==>
      status == BadRequest400 && created.None? && table.rows == old(table.rows)
    ensures CreateMessageDecision(users, body).CreateMessageAccepted? && CreateMessageDecision(users, body).recipientId != caller.id ==>
      var out := CreateMessageDecision(users, body);
      status == Created201 &&
      created == Some(Message(old(table.nextId), ResolveThread(old(table.rows), caller.id, out.recipientId, out.threadId),
        caller.id, out.recipientId, out.subject, out.body, false, now, None)) &&
      table.rows == old(table.rows) + [created.value] &&
      threadOut == Some(OrInt(created.value.threadId, created.value.id))
  {
    var out := CreateMessageDecision(users, body);
    if out.CreateMessageRejected? {
      return out.status, None, None;
    }
    var r := table.SendMessage(caller.id, out.recipientId, out.subject, out.body, out.threadId, now);
    if r.Err? {
      return BadRequest400, None, None;
    }
    return Created201, Some(r.value), Some(OrInt(r.value.threadId, r.value.id));
  }

  // -------------------------------------------------- mark_message_read

  /** The guard chain of `mark_message_read`: only the recipient may mark a message read. */
  function MarkReadDecision(rows: seq<Message>, me: int, id: int): (s: Status)
    ensures s == NotFound404 <==> !HasMessage(rows, id)
    ensures s == Forbidden403 <==> HasMessage(rows, id) && FindMessage(rows, id).value.recipientId != me
    ensures s == Ok200 <==> HasMessage(rows, id) && FindMessage(rows, id).value.recipientId == me
  {
    var found := FindMessage(rows, id);
    if found.None? then NotFound404
    else if found.value.recipientId != me then Forbidden403
    else Ok200
  }

  /**
   * `POST /messages/<id>/mark-read`: the handler calls the model's
   * `mark_as_read`, which stamps `read_at` again even on a read message.
   */
  method MarkReadEndpoint(table: MessageTable, me: int, id: int, now: int) returns (status: Status)
    requires table.Valid()
    modifies table
    ensures table.Valid() && table.nextId == old(table.nextId)
    ensures status == MarkReadDecision(old(table.rows), me, id)
    ensures status == Ok200 ==>
      table.rows == ReplaceMessage(old(table.rows), id, MarkAsRead(FindMessage(old(table.rows), id).value, now))
    ensures status != Ok200 ==> table.rows == old(table.rows)
  {
    status := MarkReadDecision(table.rows, me, id);
    if status != Ok200 {
      return;
    }
    var m := FindMessage(table.rows, id).value;
    table.rows := ReplaceMessage(table.rows, id, MarkAsRead(m, now));
  }

  /** After a successful mark-read the recipient's unread count drops by one exactly when the message was unread. */
  lemma MarkReadUnreadCount(rows: seq<Message>, nextId: int, me: int, id: int, now: int)
    requires MessagesValid(rows, nextId)
    requires MarkReadDecision(rows, me, id) == Ok200
    ensures var m := FindMessage(rows, id).value;
      UnreadCount(ReplaceMessage(rows, id, MarkAsRead(m, now)), me) ==
        UnreadCount(rows, me) - (if m.isRead then 0 else 1)
  {
    var m := FindMessage(rows, id).value;
    var k :| 0 <= k < |rows| && rows[k] == m;
    FindMessageAt(rows, nextId, k);
    if m.isRead {
      MarkReadKeepsUnreadCount(rows, id, m, now, me);
    } else {
      MarkReadLowersUnread(rows, nextId, k, me, now);
      assert ReadOnce(rows[k], now) == MarkAsRead(m, now);
    }
  }

  lemma {:induction false} MarkReadKeepsUnreadCount(rows: seq<Message>, id: int, m: Message, now: int, me: int)
    requires m.isRead
    requires forall k :: 0 <= k < |rows| && rows[k].id == id ==> rows[k] == m
    ensures UnreadCount(ReplaceMessage(rows, id, MarkAsRead(m, now)), me) == UnreadCount(rows, me)
    decreases |rows|
  {
    if |rows| > 0 {
      var init := rows[..|rows| - 1];
      assert ReplaceMessage(rows, id, MarkAsRead(m, now))[..|rows| - 1] == ReplaceMessage(init, id, MarkAsRead(m, now));
      MarkReadKeepsUnreadCount(init, id, m, now, me);
    }
  }

  // ----------------------------------------------------- delete_message

  /**
   * The guard of `delete_message` as written: `current_user.is_admin` is
   * named without being called, so it is a bound method and always truthy,
   * and `not current_user.is_admin` is always false. Any signed-in user who
   * names an existing message deletes it.
   */
  function DeleteMessageDecisionAsWritten(rows: seq<Message>, caller: User, id: int): (s: Status)
    ensures s == NotFound404 <==> !HasMessage(rows, id)
    ensures s == NoContent204 <==> HasMessage(rows, id)
  {
    var found := FindMessage(rows, id);
    var isAdminAttribute := true;
    if found.None? then NotFound404
    else if found.value.senderId != caller.id && !isAdminAttribute then Forbidden403
    else NoContent204
  }

  /** As written, the guard never refuses: a student deletes someone else's message. */
  lemma DeleteAsWrittenNeverForbids()
    ensures var m := Message(7, None, 1, 2, None, "hello", false, 0, None);
      var stranger := User(3, "eve", "eve@example.edu", "Eve", ROLE_STUDENT, true);
      !IsAdmin(stranger) && m.senderId != stranger.id &&
      DeleteMessageDecisionAsWritten([m], stranger, 7) == NoContent204
  {
    var m := Message(7, None, 1, 2, None, "hello", false, 0, None);
    assert HasMessage([m], 7) by { assert [m][0].id == 7; }
  }

  /** The guard the source states in its comment: only the sender, or an admin, may delete. */
  function DeleteMessageDecision(rows: seq<Message>, caller: User, id: int): (s: Status)
    ensures s == NotFound404 <==> !HasMessage(rows, id)
    ensures s == Forbidden403 <==>
      HasMessage(rows, id) && FindMessage(rows, id).value.senderId != caller.id && !IsAdmin(caller)
    ensures s == NoContent204 <==>
      HasMessage(rows, id) && (FindMessage(rows, id).value.senderId == caller.id || IsAdmin(caller))
  {
    var found := FindMessage(rows, id);
    if found.None? then NotFound404
    else if found.value.senderId != caller.id && !IsAdmin(caller) then Forbidden403
    else NoContent204
  }

  /** The corrected guard agrees with the written one exactly for the sender and for admins. */
  lemma DeleteDecisionsAgree(rows: seq<Message>, caller: User, id: int)
    ensures DeleteMessageDecision(rows, caller, id) == DeleteMessageDecisionAsWritten(rows, caller, id) <==>
      !HasMessage(rows, id) || FindMessage(rows, id).value.senderId == caller.id || IsAdmin(caller)
  {
  }

  /** `DELETE /messages/<id>` with the corrected guard. */
  method DeleteMessageEndpoint(table: MessageTable, caller: User, id: int) returns (status: Status)
    requires table.Valid()
    modifies table
    ensures table.Valid() && table.nextId == old(table.nextId)
    ensures status == DeleteMessageDecision(old(table.rows), caller, id)
    ensures status == NoContent204 ==> table.rows == Filter(old(table.rows), (m: Message) => m.id != id)
    ensures status != NoContent204 ==> table.rows == old(table.rows)
  {
    status := DeleteMessageDecision(table.rows, caller, id);
    if status != NoContent204 {
      return;
    }
    var deleted := table.DeleteMessage(id);
  }
}
