/**
 * The notification service: the text, link and recipients of the
 * notifications raised for new messages, denied and cancelled bookings, and
 * the store every notification is added to, unread.
 */
module NotificationService {
  import opened Common
  import opened PySeq
  import opened Strings
  import opened Models

  /** The kinds of notification; their stored spellings are not part of this model. */
  datatype NotificationType =
    | NewMessage | BookingRequest | BookingConfirmed | BookingDenied
    | BookingCancelled | BookingReminder | ReviewFlagged

  /** The columns of a notification that the service fills in. */
  datatype Notification = Notification(
    userId: int,
    kind: NotificationType,
    title: string,
    description: string,
    actionUrl: Option<string>,
    senderId: Option<int>,
    messageId: Option<int>,
    bookingId: Option<int>,
    isRead: bool)

  /** What the service reads of `booking.resource`: its name and its creator. */
  datatype ResourceRef = ResourceRef(name: string, creatorId: int)

  /** Reading `booking.resource.creator_id` when the booking has no resource raises. */
  datatype NotifyError = ResourceMissing

  const PREVIEW_LENGTH := 100
  const ELLIPSIS := "..."
  const REASON_PREFIX := " Reason: "

  // ------------------------------------------------------------ texts

  /** `body[:100] + ('...' if len(body) > 100 else '')`. */
  function MessagePreview(body: string): (r: string)
    ensures |body| <= PREVIEW_LENGTH ==> r == body
    ensures |body| > PREVIEW_LENGTH ==> r == body[..PREVIEW_LENGTH] + ELLIPSIS && |r| == PREVIEW_LENGTH + 3
    ensures |r| <= PREVIEW_LENGTH + 3
  {
    Take(body, PREVIEW_LENGTH) + (if |body| > PREVIEW_LENGTH then ELLIPSIS else "")
  }

  /**
   * Two previews are equal exactly when the bodies are equal (short bodies)
   * or share their first 100 characters (long bodies); a short and a long
   * body never share a preview.
   */
  lemma MessagePreviewEqual(a: string, b: string)
    ensures |a| <= PREVIEW_LENGTH && |b| <= PREVIEW_LENGTH ==> (MessagePreview(a) == MessagePreview(b) <==> a == b)
    ensures |a| > PREVIEW_LENGTH && |b| > PREVIEW_LENGTH ==>
      (MessagePreview(a) == MessagePreview(b) <==> a[..PREVIEW_LENGTH] == b[..PREVIEW_LENGTH])
    ensures |a| <= PREVIEW_LENGTH < |b| ==> MessagePreview(a) != MessagePreview(b)
  {
    if |a| > PREVIEW_LENGTH && |b| > PREVIEW_LENGTH && MessagePreview(a) == MessagePreview(b) {
      assert MessagePreview(a)[..PREVIEW_LENGTH] == a[..PREVIEW_LENGTH];
      assert MessagePreview(b)[..PREVIEW_LENGTH] == b[..PREVIEW_LENGTH];
    }
  }

  /** The preview always begins with the body's first characters. */
  lemma MessagePreviewPrefix(body: string)
    ensures var n := if |body| < PREVIEW_LENGTH then |body| else PREVIEW_LENGTH;
      MessagePreview(body)[..n] == body[..n]
  {
  }

  /** `sender.full_name if sender else "Unknown User"`. */
  function SenderName(sender: Option<User>): (r: string)
    ensures sender.Some? ==> r == sender.value.fullName
    ensures sender.None? ==> r == "Unknown User"
  {
    if sender.Some? then sender.value.fullName else "Unknown User"
  }

  const THREAD_URL_PREFIX := "/messages/thread/"

  /** `f"/messages/thread/{message.thread_id or message.id}"`. */
  function ThreadUrl(m: Message): (r: string)
    ensures StartsWith(r, THREAD_URL_PREFIX)
    ensures r[|THREAD_URL_PREFIX|..] == IntToString(OrInt(m.threadId, m.id))
  {
    THREAD_URL_PREFIX + IntToString(OrInt(m.threadId, m.id))
  }

  /** Two messages link to the same page exactly when they resolve to the same thread. */
  lemma ThreadUrlInjective(a: Message, b: Message)
    ensures ThreadUrl(a) == ThreadUrl(b) <==> OrInt(a.threadId, a.id) == OrInt(b.threadId, b.id)
  {
    if ThreadUrl(a) == ThreadUrl(b) {
      assert ThreadUrl(a)[|THREAD_URL_PREFIX|..] == ThreadUrl(b)[|THREAD_URL_PREFIX|..];
      IntToStringInjective(OrInt(a.threadId, a.id), OrInt(b.threadId, b.id));
    }
  }

  /** `booking.resource.name if booking.resource else "A Resource"`. */
  function ResourceName(r: Option<ResourceRef>): (n: string)
    ensures r.Some? ==> n == r.value.name
    ensures r.None? ==> n == "A Resource"
  {
    if r.Some? then r.value.name else "A Resource"
  }

  /** `f" Reason: {reason}" if reason else ""`. */
  function ReasonText(reason: string): (r: string)
    ensures reason == "" <==> r == ""
    ensures reason != "" ==> r == REASON_PREFIX + reason
  {
    if reason != "" then REASON_PREFIX + reason else ""
  }

  /** The reason read back from the tail a description got from `ReasonText`. */
  function ReasonFromTail(tail: string): string {
    if |tail| >= |REASON_PREFIX| then tail[|REASON_PREFIX|..] else ""
  }

  /** The reason is recoverable from the text: nothing is lost, and an empty reason adds nothing. */
  lemma ReasonTextRoundTrip(reason: string)
    ensures ReasonFromTail(ReasonText(reason)) == reason
  {
  }

  function DenialBase(resourceName: string): string {
    "Your booking for " + resourceName + " was denied."
  }

  /** The description of a denial: the base sentence, then the reason when there is one. */
  function DenialDescription(resourceName: string, reason: string): (r: string)
    ensures r == DenialBase(resourceName) + ReasonText(reason)
    ensures reason == "" ==> r == DenialBase(resourceName)
  {
    var d := DenialBase(resourceName);
    if reason != "" then d + REASON_PREFIX + reason else d
  }

  /** Reading the reason back from a denial's description returns the reason given. */
  lemma DenialReasonRecoverable(resourceName: string, reason: string)
    ensures var d := DenialDescription(resourceName, reason);
      |d| >= |DenialBase(resourceName)| &&
      d[..|DenialBase(resourceName)|] == DenialBase(resourceName) &&
      ReasonFromTail(d[|DenialBase(resourceName)|..]) == reason
  {
    var b := DenialBase(resourceName);
    var d := DenialDescription(resourceName, reason);
    assert d[|b|..] == ReasonText(reason);
  }

  /** Who hears of a cancellation: the requester first, then the owner unless the owner cancelled. */
  function CancellationRecipients(requester: int, owner: int, cancelledBy: int): (r: seq<int>)
    ensures 1 <= |r| <= 2 && r[0] == requester
    ensures |r| == 2 <==> cancelledBy != owner
    ensures |r| == 2 ==> r[1] == owner
  {
    [requester] + (if cancelledBy != owner then [owner] else [])
  }

  /** The owner is told separately exactly when someone else cancelled, even when the owner is the requester. */
  lemma OwnerToldUnlessOwnerCancelled(requester: int, owner: int, cancelledBy: int)
    ensures owner in CancellationRecipients(requester, owner, cancelledBy) <==> cancelledBy != owner || requester == owner
    ensures cancelledBy == owner ==> CancellationRecipients(requester, owner, cancelledBy) == [requester]
  {
  }

  // ------------------------------------------------------------ store

  /** The notifications table, in insertion order. */
  class NotificationStore {
    var rows: seq<Notification>

    constructor ()
      ensures rows == []
    {
      rows := [];
    }

    /** `create_notification`: stores the notification unread and returns it. */
    method CreateNotification(userId: int, kind: NotificationType, title: string, description: string,
      actionUrl: Option<string>, senderId: Option<int>, messageId: Option<int>, bookingId: Option<int>)
      returns (n: Notification)
      modifies this
      ensures n == Notification(userId, kind, title, description, actionUrl, senderId, messageId, bookingId, false)
      ensures rows == old(rows) + [n]
    {
      n := Notification(userId, kind, title, description, actionUrl, senderId, messageId, bookingId, false);
      rows := rows + [n];
    }

    /** `notify_new_message`: tells the recipient, with a preview of the body and a link to the thread. */
    method NotifyNewMessage(sender: Option<User>, senderId: int, recipientId: int, m: Message)
      returns (n: Notification)
      modifies this
      ensures n == Notification(recipientId, NewMessage, "New message from " + SenderName(sender),
        MessagePreview(m.body), Some(ThreadUrl(m)), Some(senderId), Some(m.id), None, false)
      ensures rows == old(rows) + [n]
    {
      var name := if sender.Some? then sender.value.fullName else "Unknown User";
      var description := Take(m.body, PREVIEW_LENGTH) + (if |m.body| > PREVIEW_LENGTH then ELLIPSIS else "");
      n := CreateNotification(recipientId, NewMessage, "New message from " + name, description,
        Some(THREAD_URL_PREFIX + IntToString(OrInt(m.threadId, m.id))), Some(senderId), Some(m.id), None);
    }

    /**
     * `notify_booking_denied`: tells the requester, with the reason when one
     * is given. Without a resource the call raises before storing anything.
     */
    method NotifyBookingDenied(b: Booking, resource: Option<ResourceRef>, reason: string)
      returns (r: Result<Notification, NotifyError>)
      modifies this
      ensures resource.None? ==> r == Err(ResourceMissing) && rows == old(rows)
      ensures resource.Some? ==>
        r == Ok(Notification(b.userId, BookingDenied, "Booking denied for " + resource.value.name,
          DenialDescription(resource.value.name, reason), Some("/bookings"),
          Some(resource.value.creatorId), None, Some(b.id), false)) &&
        rows == old(rows) + [r.value]
    {
      var name := ResourceName(resource);
      var description := "Your booking for " + name + " was denied.";
      if reason != "" {
        description := description + REASON_PREFIX + reason;
      }
      if resource.None? {
        return Err(ResourceMissing);
      }
      var n := CreateNotification(b.userId, BookingDenied, "Booking denied for " + name, description,
        Some("/bookings"), Some(resource.value.creatorId), None, Some(b.id));
      return Ok(n);
    }

    /**
     * `notify_booking_cancelled`: the requester's notification, then the
     * owner's unless the owner cancelled. Without a resource the requester's
     * notification is stored and the owner test then raises.
     */
    method NotifyBookingCancelled(b: Booking, resource: Option<ResourceRef>, cancelledBy: int, reason: string)
      returns (r: Result<seq<Notification>, NotifyError>)
      modifies this
      ensures var name := ResourceName(resource);
        var first := Notification(b.userId, BookingCancelled, "Booking cancelled for " + name,
          "Your booking for " + name + " has been cancelled." + ReasonText(reason),
          Some("/bookings"), Some(cancelledBy), None, Some(b.id), false);
        (resource.None? ==> r == Err(ResourceMissing) && rows == old(rows) + [first]) &&
        (resource.Some? ==>
          r.Ok? && rows == old(rows) + r.value &&
          |r.value| == |CancellationRecipients(b.userId, resource.value.creatorId, cancelledBy)| &&
          r.value[0] == first &&
          (|r.value| == 2 ==> r.value[1] == Notification(resource.value.creatorId, BookingCancelled,
            "Booking cancelled for " + name,
            "A booking for " + name + " has been cancelled." + ReasonText(reason),
            Some("/bookings"), Some(cancelledBy), None, Some(b.id), false)))
    {
      var name := ResourceName(resource);
      var reasonText := if reason != "" then REASON_PREFIX + reason else "";
      var notifications: seq<Notification> := [];
      var n := CreateNotification(b.userId, BookingCancelled, "Booking cancelled for " + name,
        "Your booking for " + name + " has been cancelled." + reasonText,
        Some("/bookings"), Some(cancelledBy), None, Some(b.id));
      notifications := notifications + [n];
      if resource.None? {
        return Err(ResourceMissing);
      }
      if cancelledBy != resource.value.creatorId {
        n := CreateNotification(resource.value.creatorId, BookingCancelled, "Booking cancelled for " + name,
          "A booking for " + name + " has been cancelled." + reasonText,
          Some("/bookings"), Some(cancelledBy), None, Some(b.id));
        notifications := notifications + [n];
      }
      return Ok(notifications);
    }
  }
}
