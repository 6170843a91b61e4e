/**
 * The records of the application's database: users and their roles,
 * resources, bookings, messages and reviews, with the constants and
 * defaults attached to them. Times are integers (seconds); a nullable
 * column is an `Option`.
 */
module Models {
  import opened Common

  // ---------------------------------------------------------------- users

  const ROLE_STUDENT := "student"
  const ROLE_STAFF := "staff"
  const ROLE_ADMIN := "admin"
  const VALID_ROLES := [ROLE_STUDENT, ROLE_STAFF, ROLE_ADMIN]

  /** The fields of a user that the modelled logic reads. */
  datatype User = User(id: int, username: string, email: string, fullName: string, role: string, isActive: bool)

  predicate IsAdmin(u: User) { u.role == ROLE_ADMIN }
  predicate IsStaff(u: User) { u.role == ROLE_STAFF }
  predicate IsStudent(u: User) { u.role == ROLE_STUDENT }

  /** A user with a valid role has exactly one of the three roles. */
  lemma ExactlyOneRole(u: User)
    requires u.role in VALID_ROLES
    ensures IsAdmin(u) || IsStaff(u) || IsStudent(u)
    ensures !(IsAdmin(u) && IsStaff(u)) && !(IsAdmin(u) && IsStudent(u)) && !(IsStaff(u) && IsStudent(u))
  {
  }

  /** A role outside the valid list satisfies none of the role tests. */
  lemma NoRoleOutsideValid(u: User)
    requires u.role !in VALID_ROLES
    ensures !IsAdmin(u) && !IsStaff(u) && !IsStudent(u)
  {
  }

  // ------------------------------------------------------------ resources

  const RESOURCE_DRAFT := "draft"
  const RESOURCE_PUBLISHED := "published"
  const RESOURCE_ARCHIVED := "archived"

  datatype Resource = Resource(
    id: int,
    name: string,
    description: Option<string>,
    location: string,
    resourceType: string,
    capacity: Option<int>,
    isAvailable: bool,
    requiresApproval: bool,
    status: string,
    imagePath: Option<string>,
    creatorId: int)

  /** A resource created with only its required columns, taking the column defaults. */
  function NewResource(id: int, name: string, location: string, resourceType: string, creatorId: int): (r: Resource)
    ensures r.id == id && r.name == name && r.location == location && r.resourceType == resourceType
    ensures r.creatorId == creatorId
    ensures !r.requiresApproval && r.isAvailable && r.status == RESOURCE_PUBLISHED
    ensures r.description.None? && r.capacity.None? && r.imagePath.None?
  {
    Resource(id, name, None, location, resourceType, None, true, false, RESOURCE_PUBLISHED, None, creatorId)
  }

  // ------------------------------------------------------------- bookings

  const STATUS_PENDING := "pending"
  const STATUS_CONFIRMED := "confirmed"
  const STATUS_CANCELLED := "cancelled"
  const STATUS_COMPLETED := "completed"
  const VALID_STATUSES := [STATUS_PENDING, STATUS_CONFIRMED, STATUS_CANCELLED, STATUS_COMPLETED]

  /**
   * A booking. The status is a string, as in the database: the data layer
   * stores whatever status it is given.
   */
  datatype Booking = Booking(
    id: int,
    userId: int,
    resourceId: int,
    startTime: int,
    endTime: int,
    status: string,
    notes: Option<string>)

  /** A booking row created without a status takes the column default. */
  function NewBooking(id: int, userId: int, resourceId: int, startTime: int, endTime: int): (b: Booking)
    ensures b.status == STATUS_PENDING && b.notes.None?
    ensures b.id == id && b.userId == userId && b.resourceId == resourceId
    ensures b.startTime == startTime && b.endTime == endTime
  {
    Booking(id, userId, resourceId, startTime, endTime, STATUS_PENDING, None)
  }

  /** The valid statuses are exactly the four named ones, all different. */
  lemma ValidStatusesExactly(s: string)
    ensures s in VALID_STATUSES <==>
      s == STATUS_PENDING || s == STATUS_CONFIRMED || s == STATUS_CANCELLED || s == STATUS_COMPLETED
    ensures |VALID_STATUSES| == 4
    ensures forall i, j :: 0 <= i < j < |VALID_STATUSES| ==> VALID_STATUSES[i] != VALID_STATUSES[j]
  {
  }

  function StartOf(b: Booking): int { b.startTime }

  // ------------------------------------------------------------- messages

  datatype Message = Message(
    id: int,
    threadId: Option<int>,
    senderId: int,
    recipientId: int,
    subject: Option<string>,
    body: string,
    isRead: bool,
    createdAt: int,
    readAt: Option<int>)

  /**
   * `Message.mark_as_read`: it stamps the message read at `now`,
   * whether or not it was read already.
   */
  function MarkAsRead(m: Message, now: int): (r: Message)
    ensures r.isRead && r.readAt == Some(now)
    ensures r == m.(isRead := r.isRead, readAt := r.readAt)
  {
    m.(isRead := true, readAt := Some(now))
  }

  // -------------------------------------------------------------- reviews

  const MIN_RATING := 1
  const MAX_RATING := 5

  /** The table's check constraint on ratings. */
  predicate ValidRating(rating: int) { MIN_RATING <= rating <= MAX_RATING }

  datatype Review = Review(
    id: int,
    reviewerId: int,
    resourceId: int,
    rating: int,
    title: Option<string>,
    comment: Option<string>,
    createdAt: int)

  lemma ValidRatingRange(rating: int)
    ensures ValidRating(rating) <==> rating in {1, 2, 3, 4, 5}
  {
  }
}
