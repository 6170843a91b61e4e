/**
 * The booking table and its data-access operations: creation with a time
 * range check, the queries (each a filter followed by `ORDER BY start_time`
 * and paging), the confirmed-overlap query used for conflict detection, the
 * field-whitelisted update and the status setters, deletion and counting.
 */
module BookingDal {
  import opened Common
  import opened PySeq
  import opened Sorting
  import opened Models

  /** The `ValueError`s the data layer raises. */
  datatype DalError = InvalidTimeRange | NotFound

  // --------------------------------------------------------------- lookup

  predicate HasId(rows: seq<Booking>, id: int) {
    exists k :: 0 <= k < |rows| && rows[k].id == id
  }

  /** `db.session.get(Booking, id)`: the row with that primary key, if any. */
  function Find(rows: seq<Booking>, id: int): (r: Option<Booking>)
    ensures r.Some? <==> HasId(rows, id)
    ensures r.Some? ==> r.value in rows && r.value.id == id
    decreases |rows|
  {
    if |rows| == 0 then None
    else if rows[0].id == id then Some(rows[0])
    else
      var r := Find(rows[1..], id);
      assert HasId(rows, id) ==> HasId(rows[1..], id) by {
        if HasId(rows, id) {
          var k :| 0 <= k < |rows| && rows[k].id == id;
          assert rows[1..][k - 1].id == id;
        }
      }
      assert HasId(rows[1..], id) ==> HasId(rows, id) by {
        if HasId(rows[1..], id) {
          var k :| 0 <= k < |rows[1..]| && rows[1..][k].id == id;
          assert rows[k + 1].id == id;
        }
      }
      r
  }

  /** Primary keys are distinct, positive and below the next key to hand out. */
  predicate IdsValid(rows: seq<Booking>, nextId: int) {
    nextId >= 1 &&
    (forall k :: 0 <= k < |rows| ==> 1 <= rows[k].id < nextId) &&
    (forall i, j :: 0 <= i < j < |rows| ==> rows[i].id != rows[j].id)
  }

  /** With distinct keys, the row found is the one at any index holding that key. */
  lemma FindAt(rows: seq<Booking>, nextId: int, k: nat)
    requires IdsValid(rows, nextId) && k < |rows|
    ensures Find(rows, rows[k].id) == Some(rows[k])
  {
    var r := Find(rows, rows[k].id);
    var j :| 0 <= j < |rows| && rows[j] == r.value;
    assert j == k;
  }

  /** Every row with key `id` replaced by `b`. */
  function Replace(rows: seq<Booking>, id: int, b: Booking): (r: seq<Booking>)
    ensures |r| == |rows|
    ensures forall k :: 0 <= k < |rows| ==> r[k] == if rows[k].id == id then b else rows[k]
  {
    seq(|rows|, k requires 0 <= k < |rows| => if rows[k].id == id then b else rows[k])
  }

  /** Replacing a row by one with the same key keeps the keys valid. */
  lemma ReplaceKeepsIds(rows: seq<Booking>, nextId: int, b: Booking)
    requires IdsValid(rows, nextId)
    ensures IdsValid(Replace(rows, b.id, b), nextId) || !HasId(rows, b.id)
  {
  }

  // ------------------------------------------------------- update_booking

  /**
   * One keyword argument of `update_booking`. `Other` is a key outside the
   * whitelist, which the source's loop skips.
   */
  datatype Assign =
    | SetStatus(status: string)
    | SetNotes(notes: Option<string>)
    | SetStart(startTime: int)
    | SetEnd(endTime: int)
    | Other(key: string)

  const ALLOWED_FIELDS := {"status", "notes", "start_time", "end_time"}

  function KeyOf(a: Assign): string {
    match a
    case SetStatus(_) => "status"
    case SetNotes(_) => "notes"
    case SetStart(_) => "start_time"
    case SetEnd(_) => "end_time"
    case Other(k) => k
  }

  /** Keyword arguments form a dict: each key at most once; `Other` is never whitelisted. */
  predicate Kwargs(kw: seq<Assign>) {
    (forall i, j :: 0 <= i < j < |kw| ==> KeyOf(kw[i]) != KeyOf(kw[j])) &&
    (forall k :: 0 <= k < |kw| && kw[k].Other? ==> kw[k].key !in ALLOWED_FIELDS)
  }

  /** `setattr(booking, key, value)` for one whitelisted key. */
  function ApplyAssign(b: Booking, a: Assign): Booking {
    match a
    case SetStatus(s) => b.(status := s)
    case SetNotes(n) => b.(notes := n)
    case SetStart(t) => b.(startTime := t)
    case SetEnd(t) => b.(endTime := t)
    case Other(_) => b
  }

  /** The whole `for key, value in kwargs.items()` loop, in argument order. */
  function ApplyAll(b: Booking, kw: seq<Assign>): Booking
    decreases |kw|
  {
    if |kw| == 0 then b else ApplyAssign(ApplyAll(b, kw[..|kw| - 1]), kw[|kw| - 1])
  }

  /** `kwargs.get('status')`, and likewise for the other whitelisted keys (the last one wins). */
  function StatusArg(kw: seq<Assign>): Option<string>
    decreases |kw|
  {
    if |kw| == 0 then None
    else if kw[|kw| - 1].SetStatus? then Some(kw[|kw| - 1].status)
    else StatusArg(kw[..|kw| - 1])
  }

  function NotesArg(kw: seq<Assign>): Option<Option<string>>
    decreases |kw|
  {
    if |kw| == 0 then None
    else if kw[|kw| - 1].SetNotes? then Some(kw[|kw| - 1].notes)
    else NotesArg(kw[..|kw| - 1])
  }

  function StartArg(kw: seq<Assign>): Option<int>
    decreases |kw|
  {
    if |kw| == 0 then None
    else if kw[|kw| - 1].SetStart? then Some(kw[|kw| - 1].startTime)
    else StartArg(kw[..|kw| - 1])
  }

  function EndArg(kw: seq<Assign>): Option<int>
    decreases |kw|
  {
    if |kw| == 0 then None
    else if kw[|kw| - 1].SetEnd? then Some(kw[|kw| - 1].endTime)
    else EndArg(kw[..|kw| - 1])
  }

  /**
   * The update loop assigns exactly the whitelisted fields that were passed
   * and leaves every other field (key, owner, resource) as it was.
   */
  lemma {:induction false} ApplyAllFields(b: Booking, kw: seq<Assign>)
    ensures ApplyAll(b, kw) == b.(
      status := StatusArg(kw).GetOr(b.status),
      notes := NotesArg(kw).GetOr(b.notes),
      startTime := StartArg(kw).GetOr(b.startTime),
      endTime := EndArg(kw).GetOr(b.endTime))
    decreases |kw|
  {
    if |kw| > 0 {
      ApplyAllFields(b, kw[..|kw| - 1]);
    }
  }

  /** The loop of `update_booking`: `setattr` for each whitelisted key, in argument order. */
  method SetAttributes(b: Booking, kwargs: seq<Assign>) returns (booking: Booking)
    ensures booking == ApplyAll(b, kwargs)
  {
    booking := b;
    var k := 0;
    while k < |kwargs|
      invariant 0 <= k <= |kwargs|
      invariant booking == ApplyAll(b, kwargs[..k])
    {
      assert kwargs[..k + 1][..k] == kwargs[..k];
      match kwargs[k] {
        case SetStatus(s) => booking := booking.(status := s);
        case SetNotes(n) => booking := booking.(notes := n);
        case SetStart(t) => booking := booking.(startTime := t);
        case SetEnd(t) => booking := booking.(endTime := t);
        case Other(_) =>
      }
      k := k + 1;
    }
    assert kwargs[..|kwargs|] == kwargs;
  }

  /** Keys outside the whitelist have no effect on the update. */
  lemma {:induction false} ApplyAllIgnoresOther(b: Booking, kw: seq<Assign>, key: string)
    ensures ApplyAll(b, kw + [Other(key)]) == ApplyAll(b, kw)
    ensures ApplyAll(b, [Other(key)] + kw) == ApplyAll(b, kw)
  {
    assert (kw + [Other(key)])[..|kw|] == kw;
    ApplyAllFields(b, [Other(key)] + kw);
    ApplyAllFields(b, kw);
    ArgsIgnoreLeadingOther(kw, key);
  }

  lemma {:induction false} ArgsIgnoreLeadingOther(kw: seq<Assign>, key: string)
    ensures StatusArg([Other(key)] + kw) == StatusArg(kw)
    ensures NotesArg([Other(key)] + kw) == NotesArg(kw)
    ensures StartArg([Other(key)] + kw) == StartArg(kw)
    ensures EndArg([Other(key)] + kw) == EndArg(kw)
    decreases |kw|
  {
    if |kw| > 0 {
      var full := [Other(key)] + kw;
      assert full[..|full| - 1] == [Other(key)] + kw[..|kw| - 1];
      ArgsIgnoreLeadingOther(kw[..|kw| - 1], key);
    } else {
      assert ([Other(key)] + kw)[..0] == [];
    }
  }

  /** What `update_booking` does to the stored row with key `id`, or the error it raises. */
  function UpdateResult(rows: seq<Booking>, id: int, kw: seq<Assign>): Result<Booking, DalError> {
    var found := Find(rows, id);
    if found.None? then Err(NotFound)
    else if StartArg(kw).Some? && EndArg(kw).Some? && StartArg(kw).value >= EndArg(kw).value then
      Err(InvalidTimeRange)
    else Ok(ApplyAll(found.value, kw))
  }

  /** The error cases of `update_booking`, both ways round. */
  lemma UpdateResultErrors(rows: seq<Booking>, id: int, kw: seq<Assign>)
    ensures UpdateResult(rows, id, kw) == Err(NotFound) <==> !HasId(rows, id)
    ensures UpdateResult(rows, id, kw) == Err(InvalidTimeRange) <==>
      HasId(rows, id) && StartArg(kw).Some? && EndArg(kw).Some? && StartArg(kw).value >= EndArg(kw).value
    ensures UpdateResult(rows, id, kw).Ok? ==> UpdateResult(rows, id, kw).value.id == id
  {
    var found := Find(rows, id);
    if found.Some? {
      ApplyAllFields(found.value, kw);
    }
  }

  /** A status setter's result: the row with its status replaced, whatever it was. */
  function StatusResult(rows: seq<Booking>, id: int, status: string): Result<Booking, DalError> {
    var found := Find(rows, id);
    if found.None? then Err(NotFound) else Ok(found.value.(status := status))
  }

  // ---------------------------------------------------------------- queries

  /**
   * A filtered query ordered by start time and cut to one page:
   * `query.filter(p).order_by(Booking.start_time).offset(offset).limit(limit)`.
   */
  function Query(rows: seq<Booking>, p: Booking -> bool, limit: nat, offset: nat): (r: seq<Booking>)
    ensures forall k :: 0 <= k < |r| ==> r[k] in rows && p(r[k])
    ensures SortedBy(r, StartOf)
    ensures limit > 0 ==> |r| <= limit
    ensures limit == 0 && offset == 0 ==> multiset(r) == multiset(Filter(rows, p))
    ensures limit == 0 && offset == 0 ==> forall b :: b in rows && p(b) ==> b in r
  {
    var hits := Filter(rows, p);
    var sorted := SortBy(hits, StartOf);
    SortBySameMembers(hits, StartOf);
    var r := Page(sorted, offset, limit);
    forall k | 0 <= k < |r| ensures r[k] in rows && p(r[k]) {
      assert r[k] == sorted[offset + k];
      SortByMembers(hits, StartOf, r[k]);
    }
    assert limit == 0 && offset == 0 ==> r == sorted;
    r
  }

  /** The row filters of the four keyed queries. */
  function OfUser(userId: int): Booking -> bool {
    (b: Booking) => b.userId == userId
  }

  function OfUserWithStatus(userId: int, status: string): Booking -> bool {
    (b: Booking) => b.userId == userId && b.status == status
  }

  function OfResource(resourceId: int): Booking -> bool {
    (b: Booking) => b.resourceId == resourceId
  }

  function WithStatus(status: string): Booking -> bool {
    (b: Booking) => b.status == status
  }

  /** `get_bookings_by_user`: unpaged, every booking of the user, ordered by start time. */
  function ByUser(rows: seq<Booking>, userId: int, limit: nat, offset: nat): (r: seq<Booking>)
    ensures forall k :: 0 <= k < |r| ==> r[k] in rows && r[k].userId == userId
    ensures SortedBy(r, StartOf)
    ensures limit == 0 && offset == 0 ==> multiset(r) == multiset(Filter(rows, OfUser(userId)))
    ensures limit == 0 && offset == 0 ==> forall b :: b in rows && b.userId == userId ==> b in r
  {
    Query(rows, OfUser(userId), limit, offset)
  }

  /** `get_user_bookings_by_status`: unpaged, every booking of the user with that status. */
  function UserByStatus(rows: seq<Booking>, userId: int, status: string, limit: nat, offset: nat): (r: seq<Booking>)
    ensures forall k :: 0 <= k < |r| ==> r[k] in rows && r[k].userId == userId && r[k].status == status
    ensures SortedBy(r, StartOf)
    ensures limit == 0 && offset == 0 ==> multiset(r) == multiset(Filter(rows, OfUserWithStatus(userId, status)))
    ensures limit == 0 && offset == 0 ==> forall b :: b in rows && b.userId == userId && b.status == status ==> b in r
  {
    Query(rows, OfUserWithStatus(userId, status), limit, offset)
  }

  /** `get_bookings_by_resource`: unpaged, every booking of the resource. */
  function ByResource(rows: seq<Booking>, resourceId: int, limit: nat, offset: nat): (r: seq<Booking>)
    ensures forall k :: 0 <= k < |r| ==> r[k] in rows && r[k].resourceId == resourceId
    ensures SortedBy(r, StartOf)
    ensures limit == 0 && offset == 0 ==> multiset(r) == multiset(Filter(rows, OfResource(resourceId)))
    ensures limit == 0 && offset == 0 ==> forall b :: b in rows && b.resourceId == resourceId ==> b in r
  {
    Query(rows, OfResource(resourceId), limit, offset)
  }

  /** `get_bookings_by_status`: unpaged, every booking with that status. */
  function ByStatus(rows: seq<Booking>, status: string, limit: nat, offset: nat): (r: seq<Booking>)
    ensures forall k :: 0 <= k < |r| ==> r[k] in rows && r[k].status == status
    ensures SortedBy(r, StartOf)
    ensures limit == 0 && offset == 0 ==> multiset(r) == multiset(Filter(rows, WithStatus(status)))
    ensures limit == 0 && offset == 0 ==> forall b :: b in rows && b.status == status ==> b in r
  {
    Query(rows, WithStatus(status), limit, offset)
  }

  /** `get_all_bookings`: unpaged, it is every row, ordered by start time. */
  function AllBookings(rows: seq<Booking>, limit: nat, offset: nat): (r: seq<Booking>)
    ensures forall k :: 0 <= k < |r| ==> r[k] in rows
    ensures SortedBy(r, StartOf)
    ensures limit == 0 && offset == 0 ==> multiset(r) == multiset(rows)
  {
    FilterAll(rows, (b: Booking) => true);
    Query(rows, (b: Booking) => true, limit, offset)
  }

  /** `s1 < e2 and e1 > s2`: the two half-open intervals share a moment. */
  predicate Overlaps(s1: int, e1: int, s2: int, e2: int) {
    s1 < e2 && e1 > s2
  }

  /** The overlap test does not depend on which interval is the query. */
  lemma OverlapsSymmetric(s1: int, e1: int, s2: int, e2: int)
    ensures Overlaps(s1, e1, s2, e2) <==> Overlaps(s2, e2, s1, e1)
  {
  }

  /** The time filter of `get_confirmed_bookings_for_resource`, by which bounds are given. */
  predicate InWindow(b: Booking, qStart: Option<int>, qEnd: Option<int>) {
    if qStart.Some? && qEnd.Some? then b.startTime < qEnd.value && b.endTime > qStart.value
    else if qStart.Some? then b.endTime > qStart.value
    else if qEnd.Some? then b.startTime < qEnd.value
    else true
  }

  predicate ConfirmedOn(b: Booking, resourceId: int, qStart: Option<int>, qEnd: Option<int>) {
    b.resourceId == resourceId && b.status == STATUS_CONFIRMED && InWindow(b, qStart, qEnd)
  }

  /** `get_confirmed_bookings_for_resource`: confirmed bookings of one resource in a window, by start. */
  function ConfirmedForResource(rows: seq<Booking>, resourceId: int, qStart: Option<int>, qEnd: Option<int>): (r: seq<Booking>)
    ensures SortedBy(r, StartOf)
    ensures forall b :: b in r <==> b in rows && ConfirmedOn(b, resourceId, qStart, qEnd)
    ensures multiset(r) <= multiset(rows)
  {
    var hits := Filter(rows, (b: Booking) => ConfirmedOn(b, resourceId, qStart, qEnd));
    var r := SortBy(hits, StartOf);
    forall b ensures b in r <==> b in hits {
      SortByMembers(hits, StartOf, b);
    }
    r
  }

  /** With both bounds, the query is exactly the half-open overlap test against confirmed rows. */
  lemma ConfirmedQueryBothBounds(rows: seq<Booking>, resourceId: int, qs: int, qe: int, b: Booking)
    ensures b in ConfirmedForResource(rows, resourceId, Some(qs), Some(qe)) <==>
      b in rows && b.resourceId == resourceId && b.status == STATUS_CONFIRMED &&
      Overlaps(b.startTime, b.endTime, qs, qe)
  {
  }

  /** A confirmed booking that ends when the query starts, or starts when it ends, does not match. */
  lemma AdjacentNotReturned(rows: seq<Booking>, resourceId: int, qs: int, qe: int, b: Booking)
    requires b.endTime == qs || b.startTime == qe
    ensures b !in ConfirmedForResource(rows, resourceId, Some(qs), Some(qe))
  {
  }

  /** Only confirmed rows are ever returned, whichever bounds are given. */
  lemma OnlyConfirmedReturned(rows: seq<Booking>, resourceId: int, qs: Option<int>, qe: Option<int>, b: Booking)
    requires b.status != STATUS_CONFIRMED
    ensures b !in ConfirmedForResource(rows, resourceId, qs, qe)
  {
  }

  /** With a single bound the filter is one-sided. */
  lemma ConfirmedQueryOneBound(rows: seq<Booking>, resourceId: int, t: int, b: Booking)
    requires b in rows && b.resourceId == resourceId && b.status == STATUS_CONFIRMED
    ensures b in ConfirmedForResource(rows, resourceId, Some(t), None) <==> b.endTime > t
    ensures b in ConfirmedForResource(rows, resourceId, None, Some(t)) <==> b.startTime < t
    ensures b in ConfirmedForResource(rows, resourceId, None, None)
  {
  }

  // ------------------------------------------------------------------ table

  /** The `bookings` table: its rows in insertion order, and the next primary key. */
  class BookingTable {
    var rows: seq<Booking>
    var nextId: int

    ghost predicate Valid()
      reads this
    {
      IdsValid(rows, nextId)
    }

    constructor ()
      ensures Valid() && rows == [] && nextId == 1
    {
      rows := [];
      nextId := 1;
    }

    /** `create_booking`: refuses an empty or inverted range, else stores a new row. */
    method CreateBooking(userId: int, resourceId: int, startTime: int, endTime: int, status: string, notes: Option<string>)
      returns (r: Result<Booking, DalError>)
      requires Valid()
      modifies this
      ensures Valid()
      ensures startTime >= endTime ==> r == Err(InvalidTimeRange) && rows == old(rows) && nextId == old(nextId)
      ensures startTime < endTime ==>
        r == Ok(Booking(old(nextId), userId, resourceId, startTime, endTime, status, notes)) &&
        rows == old(rows) + [r.value] && nextId == old(nextId) + 1
    {
      if startTime >= endTime {
        return Err(InvalidTimeRange);
      }
      var b := Booking(nextId, userId, resourceId, startTime, endTime, status, notes);
      rows := rows + [b];
      nextId := nextId + 1;
      return Ok(b);
    }

    /** `update_booking`: the `setattr` loop over the whitelisted keyword arguments. */
    method UpdateBooking(id: int, kwargs: seq<Assign>) returns (r: Result<Booking, DalError>)
      requires Valid() && Kwargs(kwargs)
      modifies this
      ensures Valid() && nextId == old(nextId)
      ensures r == UpdateResult(old(rows), id, kwargs)
      ensures rows == if r.Ok? then Replace(old(rows), id, r.value) else old(rows)
    {
      var found := Find(rows, id);
      if found.None? {
        return Err(NotFound);
      }
      var startArg, endArg := StartArg(kwargs), EndArg(kwargs);
      if startArg.Some? && endArg.Some? && startArg.value >= endArg.value {
        return Err(InvalidTimeRange);
      }
      var booking := SetAttributes(found.value, kwargs);
      ApplyAllFields(found.value, kwargs);
      ReplaceKeepsIds(rows, nextId, booking);
      rows := Replace(rows, id, booking);
      return Ok(booking);
    }

    /** Sets the status of a stored booking, whatever its current status. */
    method SetStatusOf(id: int, status: string) returns (r: Result<Booking, DalError>)
      requires Valid()
      modifies this
      ensures Valid() && nextId == old(nextId)
      ensures r == StatusResult(old(rows), id, status)
      ensures rows == if r.Ok? then Replace(old(rows), id, r.value) else old(rows)
    {
      var found := Find(rows, id);
      if found.None? {
        return Err(NotFound);
      }
      var b := found.value.(status := status);
      ReplaceKeepsIds(rows, nextId, b);
      rows := Replace(rows, id, b);
      return Ok(b);
    }

    /** `confirm_booking`. */
    method ConfirmBooking(id: int) returns (r: Result<Booking, DalError>)
      requires Valid()
      modifies this
      ensures Valid() && nextId == old(nextId)
      ensures r == StatusResult(old(rows), id, STATUS_CONFIRMED)
      ensures rows == if r.Ok? then Replace(old(rows), id, r.value) else old(rows)
    {
      r := SetStatusOf(id, STATUS_CONFIRMED);
    }

    /** `cancel_booking`. */
    method CancelBooking(id: int) returns (r: Result<Booking, DalError>)
      requires Valid()
      modifies this
      ensures Valid() && nextId == old(nextId)
      ensures r == StatusResult(old(rows), id, STATUS_CANCELLED)
      ensures rows == if r.Ok? then Replace(old(rows), id, r.value) else old(rows)
    {
      r := SetStatusOf(id, STATUS_CANCELLED);
    }

    /** `complete_booking`. */
    method CompleteBooking(id: int) returns (r: Result<Booking, DalError>)
      requires Valid()
      modifies this
      ensures Valid() && nextId == old(nextId)
      ensures r == StatusResult(old(rows), id, STATUS_COMPLETED)
      ensures rows == if r.Ok? then Replace(old(rows), id, r.value) else old(rows)
    {
      r := SetStatusOf(id, STATUS_COMPLETED);
    }

    /** `delete_booking`: `False` when there is no such row, else the row is removed. */
    method DeleteBooking(id: int) returns (deleted: bool)
      requires Valid()
      modifies this
      ensures Valid() && nextId == old(nextId)
      ensures deleted == HasId(old(rows), id)
      ensures rows == Filter(old(rows), (b: Booking) => b.id != id)
      ensures !HasId(rows, id)
      ensures deleted ==> |rows| == |old(rows)| - 1
      ensures !deleted ==> rows == old(rows)
    {
      var found := Find(rows, id);
      if found.None? {
        FilterAll(rows, (b: Booking) => b.id != id);
        return false;
      }
      var before := rows;
      RemoveOne(before, nextId, id);
      rows := Filter(rows, (b: Booking) => b.id != id);
      return true;
    }

    /** `booking_count`. */
    method BookingCount() returns (n: nat)
      ensures n == |rows|
    {
      return |rows|;
    }
  }

  /** Removing a present key from rows with distinct keys removes exactly one row. */
  lemma {:induction false} RemoveOne(rows: seq<Booking>, nextId: int, id: int)
    requires IdsValid(rows, nextId) && HasId(rows, id)
    ensures |Filter(rows, (b: Booking) => b.id != id)| == |rows| - 1
    ensures IdsValid(Filter(rows, (b: Booking) => b.id != id), nextId)
    decreases |rows|
  {
    var last := rows[|rows| - 1];
    var init := rows[..|rows| - 1];
    assert IdsValid(init, nextId);
    if last.id == id {
      assert !HasId(init, id);
      FilterAll(init, (b: Booking) => b.id != id);
    } else {
      assert HasId(init, id) by {
        var k :| 0 <= k < |rows| && rows[k].id == id;
        assert init[k].id == id;
      }
      RemoveOne(init, nextId, id);
    }
    FilterIdsValid(rows, nextId, id);
  }

  lemma FilterIdsValid(rows: seq<Booking>, nextId: int, id: int)
    requires IdsValid(rows, nextId)
    ensures IdsValid(Filter(rows, (b: Booking) => b.id != id), nextId)
  {
    var r := Filter(rows, (b: Booking) => b.id != id);
    forall i, j | 0 <= i < j < |r| ensures r[i].id != r[j].id {
      SubsequenceDistinct(rows, nextId, id, i, j);
    }
  }

  lemma {:induction false} SubsequenceDistinct(rows: seq<Booking>, nextId: int, id: int, i: nat, j: nat)
    requires IdsValid(rows, nextId)
    requires i < j < |Filter(rows, (b: Booking) => b.id != id)|
    ensures Filter(rows, (b: Booking) => b.id != id)[i].id != Filter(rows, (b: Booking) => b.id != id)[j].id
    decreases |rows|
  {
    var init := rows[..|rows| - 1];
    var last := rows[|rows| - 1];
    var ri := Filter(init, (b: Booking) => b.id != id);
    assert IdsValid(init, nextId);
    if last.id != id && j == |ri| {
      var x := Filter(rows, (b: Booking) => b.id != id)[i];
      assert x == ri[i];
      assert x in init;
      var k :| 0 <= k < |init| && init[k] == x;
      assert rows[k] == x;
    } else {
      SubsequenceDistinct(init, nextId, id, i, j);
    }
  }
}
