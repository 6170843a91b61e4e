/**
 * The expiration job: every pending or confirmed booking whose end time has
 * passed becomes completed, and the number of such bookings is returned;
 * plus the query for bookings that end within the next few hours.
 */
module ExpireBookings {
  import opened PySeq
  import opened Models
  import opened BookingDal
  import opened BookingsController

  const SECONDS_PER_HOUR := 3600

  predicate Active(b: Booking) {
    b.status == STATUS_CONFIRMED || b.status == STATUS_PENDING
  }

  /** The filter of `expire_past_bookings`: active, and ended strictly before `now`. */
  predicate Expirable(b: Booking, now: int) {
    b.endTime < now && Active(b)
  }

  /** One booking after the sweep. */
  function Expire(b: Booking, now: int): (r: Booking)
    ensures Expirable(b, now) ==> r == b.(status := STATUS_COMPLETED)
    ensures !Expirable(b, now) ==> r == b
  {
    if Expirable(b, now) then b.(status := STATUS_COMPLETED) else b
  }

  /** The whole table after the sweep. */
  function Sweep(rows: seq<Booking>, now: int): (r: seq<Booking>)
    ensures |r| == |rows|
    ensures forall k :: 0 <= k < |rows| ==> r[k] == Expire(rows[k], now)
  {
    seq(|rows|, k requires 0 <= k < |rows| => Expire(rows[k], now))
  }

  /** The number of rows the sweep changes. */
  function CountExpirable(rows: seq<Booking>, now: int): nat
    decreases |rows|
  {
    if |rows| == 0 then 0
    else CountExpirable(rows[..|rows| - 1], now) + (if Expirable(rows[|rows| - 1], now) then 1 else 0)
  }

  /** The count is the number of rows the query of the job returns. */
  lemma {:induction false} CountIsQuerySize(rows: seq<Booking>, now: int)
    ensures CountExpirable(rows, now) == |Filter(rows, (b: Booking) => Expirable(b, now))|
    decreases |rows|
  {
    if |rows| > 0 {
      CountIsQuerySize(rows[..|rows| - 1], now);
    }
  }

  /**
   * `expire_past_bookings`: the session holds the rows, the loop marks the
   * expired ones completed and counts them, and the commit writes them back.
   */
  method ExpirePastBookings(table: BookingTable, now: int) returns (count: nat)
    requires table.Valid()
    modifies table
    ensures table.Valid() && table.nextId == old(table.nextId)
    ensures table.rows == Sweep(old(table.rows), now)
    ensures count == CountExpirable(old(table.rows), now)
  {
    var swept;
    swept, count := MarkCompleted(table.rows, now);
    SweepKeepsIds(table.rows, table.nextId, now);
    table.rows := swept;
  }

  /** The loop of `expire_past_bookings` over the rows held by the session. */
  method MarkCompleted(rows: seq<Booking>, now: int) returns (swept: seq<Booking>, count: nat)
    ensures swept == Sweep(rows, now)
    ensures count == CountExpirable(rows, now)
  {
    swept := rows;
    count := 0;
    var i := 0;
    while i < |rows|
      invariant 0 <= i <= |rows|
      invariant swept == Sweep(rows[..i], now) + rows[i..]
      invariant count == CountExpirable(rows[..i], now)
    {
      SweepStep(rows, i, now);
      var b := swept[i];
      if Expirable(b, now) {
        swept := swept[i := b.(status := STATUS_COMPLETED)];
        count := count + 1;
      }
      i := i + 1;
    }
    assert rows[..i] == rows;
  }

  /** One turn of the loop: the row at `i` is swept and counted, the rest stays. */
  lemma SweepStep(rows: seq<Booking>, i: nat, now: int)
    requires i < |rows|
    ensures (Sweep(rows[..i], now) + rows[i..])[i] == rows[i]
    ensures Expirable(rows[i], now) ==>
      (Sweep(rows[..i], now) + rows[i..])[i := rows[i].(status := STATUS_COMPLETED)] == Sweep(rows[..i + 1], now) + rows[i + 1..]
    ensures !Expirable(rows[i], now) ==> Sweep(rows[..i], now) + rows[i..] == Sweep(rows[..i + 1], now) + rows[i + 1..]
    ensures CountExpirable(rows[..i + 1], now) == CountExpirable(rows[..i], now) + if Expirable(rows[i], now) then 1 else 0
  {
    assert rows[..i + 1][..i] == rows[..i];
  }

  lemma SweepKeepsIds(rows: seq<Booking>, nextId: int, now: int)
    requires IdsValid(rows, nextId)
    ensures IdsValid(Sweep(rows, now), nextId)
  {
  }

  /**
   * What the sweep changes: exactly the active rows that ended before `now`,
   * and only their status. Cancelled, completed and not-yet-ended rows stay.
   */
  lemma SweepEffect(rows: seq<Booking>, now: int, k: nat)
    requires k < |rows|
    ensures Sweep(rows, now)[k] != rows[k] <==> Expirable(rows[k], now) && rows[k].status != STATUS_COMPLETED
    ensures Sweep(rows, now)[k] == rows[k].(status := Sweep(rows, now)[k].status)
    ensures rows[k].endTime >= now || !Active(rows[k]) ==> Sweep(rows, now)[k] == rows[k]
    ensures Expirable(rows[k], now) ==> Sweep(rows, now)[k].status == STATUS_COMPLETED
  {
  }

  /** A booking ending exactly at `now` is not expired: the comparison is strict. */
  lemma EndingNowNotExpired(b: Booking, now: int)
    requires b.endTime == now
    ensures Expire(b, now) == b
  {
  }

  /** No row is expirable after a sweep with the same `now`. */
  lemma {:induction false} NothingLeftToExpire(rows: seq<Booking>, now: int)
    ensures CountExpirable(Sweep(rows, now), now) == 0
    decreases |rows|
  {
    if |rows| > 0 {
      assert Sweep(rows, now)[..|rows| - 1] == Sweep(rows[..|rows| - 1], now);
      NothingLeftToExpire(rows[..|rows| - 1], now);
    }
  }

  /** A second run with the same `now` changes nothing and returns 0. */
  lemma SweepIdempotent(rows: seq<Booking>, now: int)
    ensures Sweep(Sweep(rows, now), now) == Sweep(rows, now)
    ensures CountExpirable(Sweep(rows, now), now) == 0
  {
    NothingLeftToExpire(rows, now);
  }

  /** At most every row is expired. */
  lemma {:induction false} CountBounded(rows: seq<Booking>, now: int)
    ensures CountExpirable(rows, now) <= |rows|
    ensures CountExpirable(rows, now) == |rows| <==> forall k :: 0 <= k < |rows| ==> Expirable(rows[k], now)
    decreases |rows|
  {
    if |rows| > 0 {
      CountBounded(rows[..|rows| - 1], now);
      assert forall k :: 0 <= k < |rows| - 1 ==> rows[..|rows| - 1][k] == rows[k];
    }
  }

  /** Turning confirmed bookings into completed ones keeps confirmed bookings disjoint. */
  lemma SweepKeepsDisjoint(rows: seq<Booking>, now: int)
    requires ConfirmedDisjoint(rows)
    ensures ConfirmedDisjoint(Sweep(rows, now))
  {
  }

  // --------------------------------------------------------- expiring soon

  /** The filter of `get_expiring_soon`: active and ending in `[now, now + hours]`, both ends included. */
  predicate ExpiringWithin(b: Booking, now: int, hours: int) {
    now <= b.endTime <= now + hours * SECONDS_PER_HOUR && Active(b)
  }

  /** `get_expiring_soon(hours)`, in table order (the query has no ORDER BY). */
  function ExpiringSoon(rows: seq<Booking>, now: int, hours: int): (r: seq<Booking>)
    ensures forall b :: b in r <==> b in rows && ExpiringWithin(b, now, hours)
  {
    Filter(rows, (b: Booking) => ExpiringWithin(b, now, hours))
  }

  /** Both ends of the window are included. */
  lemma ExpiringSoonInclusive(rows: seq<Booking>, now: int, hours: int, b: Booking)
    requires b in rows && Active(b) && hours >= 0
    requires b.endTime == now || b.endTime == now + hours * SECONDS_PER_HOUR
    ensures b in ExpiringSoon(rows, now, hours)
  {
  }

  /** For the same `now`, no booking is both due to expire and expiring soon. */
  lemma ExpiredAndExpiringDisjoint(rows: seq<Booking>, now: int, hours: int, b: Booking)
    requires Expirable(b, now)
    ensures b !in ExpiringSoon(rows, now, hours)
  {
  }
}
