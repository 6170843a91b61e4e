/**
 * The booking endpoints: the conflict predicate, the guard chains of create,
 * update, cancel and confirm, and who may see which bookings. Each chain is
 * a decision function over the table's rows; the endpoint methods apply the
 * decision to the table through the data layer.
 */
module BookingsController {
  import opened Common
  import opened PySeq
  import opened Models
  import opened BookingDal
  import opened Http

  // ------------------------------------------------------- check_conflict

  /**
   * `check_conflict` given the outcome of the confirmed-overlap query:
   * `None` is a query that raised, which the source turns into "no conflict".
   */
  function ConflictFromQuery(query: Option<seq<Booking>>): (c: bool)
    ensures query.None? ==> !c
    ensures query.Some? ==> (c <==> |query.value| > 0)
  {
    match query
    case None => false
    case Some(found) => |found| > 0
  }

  /** `check_conflict` when the query succeeds. */
  function CheckConflict(rows: seq<Booking>, resourceId: int, startTime: int, endTime: int): bool {
    ConflictFromQuery(Some(ConfirmedForResource(rows, resourceId, Some(startTime), Some(endTime))))
  }

  /** A conflict is exactly a confirmed booking of the resource overlapping the slot. */
  lemma CheckConflictExact(rows: seq<Booking>, resourceId: int, s: int, e: int)
    ensures CheckConflict(rows, resourceId, s, e) <==>
      exists b :: b in rows && b.resourceId == resourceId && b.status == STATUS_CONFIRMED &&
        Overlaps(b.startTime, b.endTime, s, e)
  {
    var q := ConfirmedForResource(rows, resourceId, Some(s), Some(e));
    if CheckConflict(rows, resourceId, s, e) {
      assert q[0] in q;
    }
  }

  /** Confirmed bookings of the same resource never overlap. */
  predicate ConfirmedDisjoint(rows: seq<Booking>) {
    forall i, j ::
      (0 <= i < j < |rows| && rows[i].resourceId == rows[j].resourceId &&
       rows[i].status == STATUS_CONFIRMED && rows[j].status == STATUS_CONFIRMED) ==>
      !Overlaps(rows[i].startTime, rows[i].endTime, rows[j].startTime, rows[j].endTime)
  }

  /** Adding a booking that is not confirmed keeps confirmed bookings disjoint. */
  lemma AddUnconfirmedKeepsDisjoint(rows: seq<Booking>, b: Booking)
    requires ConfirmedDisjoint(rows) && b.status != STATUS_CONFIRMED
    ensures ConfirmedDisjoint(rows + [b])
  {
  }

  // ------------------------------------------------------------------ create

  /**
   * A datetime argument. For create, `Missing` is an absent or empty value
   * (caught by `not all([...])`); for update, `Missing` is an absent key and
   * an empty string is `Unparseable`.
   */
  datatype TimeArg = Missing | Unparseable | At(t: int)

  /** The JSON body of a create request (`None` stands for no body or an empty one). */
  datatype CreateRequest = CreateRequest(resourceId: Option<int>, startArg: TimeArg, endArg: TimeArg, notes: Option<string>)

  datatype CreateOutcome =
    | CreateRejected(status: Status)
    | CreatePending(resourceId: int, startTime: int, endTime: int, notes: Option<string>)

  /** `notes if notes else None`. */
  function NotesOrNone(notes: Option<string>): (r: Option<string>)
    ensures r.Some? <==> notes.Some? && notes.value != ""
    ensures r.Some? ==> r == notes
  {
    if notes.Some? && notes.value != "" then notes else None
  }

  /** The guard chain of `create_booking`, in the source's order. */
  function CreateDecision(rows: seq<Booking>, resources: set<int>, body: Option<CreateRequest>): CreateOutcome {
    if body.None? then CreateRejected(BadRequest400)
    else
      var req := body.value;
      if !TruthyInt(req.resourceId) || req.startArg.Missing? || req.endArg.Missing? then CreateRejected(BadRequest400)
      else if req.resourceId.value !in resources then CreateRejected(NotFound404)
      else if req.startArg.Unparseable? || req.endArg.Unparseable? then CreateRejected(BadRequest400)
      else if req.startArg.t >= req.endArg.t then CreateRejected(BadRequest400)
      else if CheckConflict(rows, req.resourceId.value, req.startArg.t, req.endArg.t) then CreateRejected(Conflict409)
      else CreatePending(req.resourceId.value, req.startArg.t, req.endArg.t, NotesOrNone(req.notes))
  }

  /**
   * Each answer of create and the exact condition that produces it: a later
   * guard is reached only when every earlier one passed.
   */
  lemma CreateGuardOrder(rows: seq<Booking>, resources: set<int>, req: CreateRequest)
    ensures var present := TruthyInt(req.resourceId) && !req.startArg.Missing? && !req.endArg.Missing?;
      var known := present && req.resourceId.value in resources;
      var parsed := known && req.startArg.At? && req.endArg.At?;
      var ordered := parsed && req.startArg.t < req.endArg.t;
      var free := ordered && !CheckConflict(rows, req.resourceId.value, req.startArg.t, req.endArg.t);
      var out := CreateDecision(rows, resources, Some(req));
      (out == CreateRejected(NotFound404) <==> present && !known) &&
      (out == CreateRejected(Conflict409) <==> ordered && !free) &&
      (out == CreateRejected(BadRequest400) <==> !present || (known && !ordered)) &&
      (out.CreatePending? <==> free)
  {
  }

  /**
   * A created booking is pending, on an existing resource, has a proper
   * range, and overlaps no confirmed booking of that resource.
   */
  lemma CreatedBookingIsFree(rows: seq<Booking>, resources: set<int>, body: Option<CreateRequest>)
    requires CreateDecision(rows, resources, body).CreatePending?
    ensures var out := CreateDecision(rows, resources, body);
      out.resourceId in resources && out.startTime < out.endTime &&
      (out.notes.Some? ==> out.notes.value != "") &&
      forall b :: b in rows && b.resourceId == out.resourceId && b.status == STATUS_CONFIRMED ==>
        !Overlaps(b.startTime, b.endTime, out.startTime, out.endTime)
  {
    var out := CreateDecision(rows, resources, body);
    CheckConflictExact(rows, out.resourceId, out.startTime, out.endTime);
  }

  /** `POST /bookings/`: run the guard chain, then store the booking as pending. */
  method CreateBookingEndpoint(table: BookingTable, caller: User, resources: set<int>, body: Option<CreateRequest>)
    returns (status: Status, created: Option<Booking>)
    requires table.Valid()
    modifies table
    ensures table.Valid()
    ensures CreateDecision(old(table.rows), resources, body).CreateRejected? ==>
      status == CreateDecision(old(table.rows), resources, body).status &&
      created.None? && table.rows == old(table.rows)
    ensures CreateDecision(old(table.rows), resources, body).CreatePending? ==>
      var out := CreateDecision(old(table.rows), resources, body);
      status == Created201 &&
      created == Some(Booking(old(table.nextId), caller.id, out.resourceId, out.startTime, out.endTime, STATUS_PENDING, out.notes)) &&
      table.rows == old(table.rows) + [created.value]
    ensures ConfirmedDisjoint(old(table.rows)) ==> ConfirmedDisjoint(table.rows)
  {
    var out := CreateDecision(table.rows, resources, body);
    if out.CreateRejected? {
      return out.status, None;
    }
    var r := table.CreateBooking(caller.id, out.resourceId, out.startTime, out.endTime, STATUS_PENDING, out.notes);
    if ConfirmedDisjoint(old(table.rows)) {
      AddUnconfirmedKeepsDisjoint(old(table.rows), r.value);
    }
    return Created201, Some(r.value);
  }

  // ------------------------------------------------------------------ update

  /** The JSON body of an update request; `None` is no body or an empty one. */
  datatype UpdateRequest = UpdateRequest(
    startArg: TimeArg,
    endArg: TimeArg,
    notes: Option<Option<string>>,
    status: Option<string>)

  datatype UpdateOutcome = UpdateRejected(status: Status) | UpdateApplied(fields: seq<Assign>)

  predicate OwnerOrAdmin(caller: User, b: Booking) {
    IsAdmin(caller) || b.userId == caller.id
  }

  /** The datetime part of update: the `update_fields` it contributes, or the rejection. */
  function UpdateTimes(rows: seq<Booking>, b: Booking, req: UpdateRequest): (out: UpdateOutcome)
    ensures out.UpdateApplied? ==>
      (out.fields == [] ||
       (|out.fields| == 2 && out.fields[0].SetStart? && out.fields[1].SetEnd? &&
        out.fields[0].startTime < out.fields[1].endTime))
    ensures out.UpdateApplied? && out.fields == [] <==> req.startArg.Missing? && req.endArg.Missing?
  {
    if req.startArg.Missing? && req.endArg.Missing? then UpdateApplied([])
    else if req.startArg.Unparseable? then UpdateRejected(BadRequest400)
    else if req.endArg.Unparseable? then UpdateRejected(BadRequest400)
    else
      var s := if req.startArg.At? then req.startArg.t else b.startTime;
      var e := if req.endArg.At? then req.endArg.t else b.endTime;
      if s >= e then UpdateRejected(BadRequest400)
      else if (s != b.startTime || e != b.endTime) && CheckConflict(rows, b.resourceId, s, e) then
        UpdateRejected(Conflict409)
      else UpdateApplied([SetStart(s), SetEnd(e)])
  }

  /** The status part of update: admins only, and only one of the valid statuses. */
  function UpdateStatusField(caller: User, req: UpdateRequest): (out: UpdateOutcome)
    ensures out.UpdateApplied? ==> out.fields == [] || (|out.fields| == 1 && out.fields[0].SetStatus?)
    ensures out.UpdateApplied? && out.fields != [] ==> IsAdmin(caller) && out.fields[0].status in VALID_STATUSES
  {
    if req.status.None? then UpdateApplied([])
    else if !IsAdmin(caller) then UpdateRejected(Forbidden403)
    else if req.status.value !in VALID_STATUSES then UpdateRejected(BadRequest400)
    else UpdateApplied([SetStatus(req.status.value)])
  }

  /** `update_fields` in its possible shapes: times, then notes, then status, each optional. */
  predicate FieldShape(times: seq<Assign>, notes: seq<Assign>, st: seq<Assign>) {
    (times == [] || (|times| == 2 && times[0].SetStart? && times[1].SetEnd? && times[0].startTime < times[1].endTime)) &&
    (notes == [] || (|notes| == 1 && notes[0].SetNotes?)) &&
    (st == [] || (|st| == 1 && st[0].SetStatus?))
  }

  lemma FieldShapeKwargs(times: seq<Assign>, notes: seq<Assign>, st: seq<Assign>)
    requires FieldShape(times, notes, st)
    ensures Kwargs(times + notes + st)
    ensures StartArg(times + notes + st) == (if times == [] then None else Some(times[0].startTime))
    ensures EndArg(times + notes + st) == (if times == [] then None else Some(times[1].endTime))
  {
    FieldShapeDistinct(times, notes, st);
    FieldArgs(times, notes + st);
    assert times + notes + st == times + (notes + st);
  }

  lemma FieldShapeDistinct(times: seq<Assign>, notes: seq<Assign>, st: seq<Assign>)
    requires FieldShape(times, notes, st)
    ensures Kwargs(times + notes + st)
  {
    var f := times + notes + st;
    if times == [] {
      if notes == [] { assert f == st; } else if st == [] { assert f == notes; } else { assert f == [notes[0], st[0]]; }
    } else {
      var pair := [times[0], times[1]];
      assert times == pair;
      if notes == [] {
        if st == [] { assert f == pair; } else { assert f == pair + [st[0]]; }
      } else {
        if st == [] { assert f == pair + [notes[0]]; } else { assert f == pair + [notes[0], st[0]]; }
      }
    }
  }

  /** The guard chain of `update_booking`, building `update_fields` in the source's order. */
  function UpdateDecision(rows: seq<Booking>, caller: User, id: int, body: Option<UpdateRequest>): UpdateOutcome {
    var found := Find(rows, id);
    if found.None? then UpdateRejected(NotFound404)
    else if !OwnerOrAdmin(caller, found.value) then UpdateRejected(Forbidden403)
    else if body.None? then UpdateRejected(BadRequest400)
    else
      var req := body.value;
      var times := UpdateTimes(rows, found.value, req);
      if times.UpdateRejected? then times
      else
        var withNotes := times.fields + (if req.notes.Some? then [SetNotes(req.notes.value)] else []);
        var st := UpdateStatusField(caller, req);
        if st.UpdateRejected? then st
        else
          var fields := withNotes + st.fields;
          if |fields| == 0 then UpdateRejected(BadRequest400) else UpdateApplied(fields)
  }

  /** Only the owner or an admin gets past the first guards; a non-admin never sets a status. */
  lemma UpdateAuthorization(rows: seq<Booking>, caller: User, id: int, body: Option<UpdateRequest>)
    ensures UpdateDecision(rows, caller, id, body).UpdateApplied? ==>
      HasId(rows, id) && OwnerOrAdmin(caller, Find(rows, id).value)
    ensures UpdateDecision(rows, caller, id, body).UpdateApplied? && !IsAdmin(caller) ==>
      forall k :: 0 <= k < |UpdateDecision(rows, caller, id, body).fields| ==>
        !UpdateDecision(rows, caller, id, body).fields[k].SetStatus?
    ensures UpdateDecision(rows, caller, id, body).UpdateApplied? ==> |UpdateDecision(rows, caller, id, body).fields| > 0
  {
    var out := UpdateDecision(rows, caller, id, body);
    if out.UpdateApplied? {
      var found := Find(rows, id);
      var req := body.value;
      var times := UpdateTimes(rows, found.value, req);
      var notes := if req.notes.Some? then [SetNotes(req.notes.value)] else [];
      var st := UpdateStatusField(caller, req);
      assert out.fields == times.fields + notes + st.fields;
      if !IsAdmin(caller) {
        assert out.fields == times.fields + notes;
        NoStatusField(times.fields, notes);
      }
    }
  }

  /** Times and notes alone carry no status assignment. */
  lemma NoStatusField(times: seq<Assign>, notes: seq<Assign>)
    requires times == [] || (|times| == 2 && times[0].SetStart? && times[1].SetEnd?)
    requires notes == [] || (|notes| == 1 && notes[0].SetNotes?)
    ensures forall k :: 0 <= k < |times + notes| ==> !(times + notes)[k].SetStatus?
  {
  }

  /**
   * The fields an accepted update passes to the data layer have distinct,
   * whitelisted keys, and their times (when given) form a proper range.
   */
  lemma UpdateFieldsWellFormed(rows: seq<Booking>, caller: User, id: int, body: Option<UpdateRequest>)
    requires UpdateDecision(rows, caller, id, body).UpdateApplied?
    ensures Kwargs(UpdateDecision(rows, caller, id, body).fields)
    ensures var f := UpdateDecision(rows, caller, id, body).fields;
      StartArg(f).Some? <==> EndArg(f).Some?
    ensures var f := UpdateDecision(rows, caller, id, body).fields;
      StartArg(f).Some? ==> StartArg(f).value < EndArg(f).value
  {
    var found := Find(rows, id);
    var req := body.value;
    var times := UpdateTimes(rows, found.value, req);
    var notes := if req.notes.Some? then [SetNotes(req.notes.value)] else [];
    var st := UpdateStatusField(caller, req);
    FieldShapeKwargs(times.fields, notes, st.fields);
  }

  /** The time arguments of the fields are those of the leading start/end pair. */
  lemma {:induction false} FieldArgs(times: seq<Assign>, tail: seq<Assign>)
    requires times == [] || (|times| == 2 && times[0].SetStart? && times[1].SetEnd?)
    requires forall k :: 0 <= k < |tail| ==> tail[k].SetNotes? || tail[k].SetStatus?
    ensures StartArg(times + tail) == StartArg(times) && EndArg(times + tail) == EndArg(times)
    decreases |tail|
  {
    if |tail| > 0 {
      var all := times + tail;
      assert all[..|all| - 1] == times + tail[..|tail| - 1];
      FieldArgs(times, tail[..|tail| - 1]);
    } else {
      assert times + tail == times;
    }
  }

  /**
   * The conflict check of update does not leave out the booking being edited:
   * a confirmed booking moved to a slot that still overlaps its own old slot
   * conflicts with itself and is refused with 409.
   */
  lemma UpdateSelfConflict(rows: seq<Booking>, caller: User, id: int, s: int, e: int)
    requires HasId(rows, id)
    requires var b := Find(rows, id).value;
      OwnerOrAdmin(caller, b) && b.status == STATUS_CONFIRMED && s < e &&
      (s != b.startTime || e != b.endTime) && Overlaps(b.startTime, b.endTime, s, e)
    ensures UpdateDecision(rows, caller, id, Some(UpdateRequest(At(s), At(e), None, None))) == UpdateRejected(Conflict409)
  {
    var b := Find(rows, id).value;
    ConflictWith(rows, b, s, e);
    assert UpdateTimes(rows, b, UpdateRequest(At(s), At(e), None, None)) == UpdateRejected(Conflict409);
  }

  /** A confirmed row overlapping the slot is a conflict. */
  lemma ConflictWith(rows: seq<Booking>, b: Booking, s: int, e: int)
    requires b in rows && b.status == STATUS_CONFIRMED && Overlaps(b.startTime, b.endTime, s, e)
    ensures CheckConflict(rows, b.resourceId, s, e)
  {
    CheckConflictExact(rows, b.resourceId, s, e);
  }

  /** Leaving the times as they are skips the conflict check altogether. */
  lemma UpdateSameTimesNoConflictCheck(rows: seq<Booking>, caller: User, id: int, notes: Option<string>)
    requires HasId(rows, id) && OwnerOrAdmin(caller, Find(rows, id).value)
    requires Find(rows, id).value.startTime < Find(rows, id).value.endTime
    ensures var b := Find(rows, id).value;
      UpdateDecision(rows, caller, id, Some(UpdateRequest(At(b.startTime), At(b.endTime), Some(notes), None))) ==
      UpdateApplied([SetStart(b.startTime), SetEnd(b.endTime), SetNotes(notes)])
  {
    var b := Find(rows, id).value;
    assert [SetStart(b.startTime), SetEnd(b.endTime)] + [SetNotes(notes)] + []
        == [SetStart(b.startTime), SetEnd(b.endTime), SetNotes(notes)];
  }

  /**
   * An admin may set any booking to `confirmed` through update, with no
   * transition or conflict check, even when it overlaps a confirmed booking.
   */
  lemma AdminStatusChangeUnchecked(rows: seq<Booking>, caller: User, id: int, status: string)
    requires HasId(rows, id) && IsAdmin(caller) && status in VALID_STATUSES
    ensures UpdateDecision(rows, caller, id, Some(UpdateRequest(Missing, Missing, None, Some(status)))) ==
      UpdateApplied([SetStatus(status)])
  {
  }

  /** A body with no recognised field is refused with 400. */
  lemma UpdateEmptyRejected(rows: seq<Booking>, caller: User, id: int)
    requires HasId(rows, id) && OwnerOrAdmin(caller, Find(rows, id).value)
    ensures UpdateDecision(rows, caller, id, Some(UpdateRequest(Missing, Missing, None, None))) == UpdateRejected(BadRequest400)
  {
  }

  /** `PUT /bookings/<id>`: run the guard chain, then pass `update_fields` to the data layer. */
  method UpdateBookingEndpoint(table: BookingTable, caller: User, id: int, body: Option<UpdateRequest>)
    returns (status: Status)
    requires table.Valid()
    modifies table
    ensures table.Valid()
    ensures UpdateDecision(old(table.rows), caller, id, body).UpdateRejected? ==>
      status == UpdateDecision(old(table.rows), caller, id, body).status && table.rows == old(table.rows)
    ensures UpdateDecision(old(table.rows), caller, id, body).UpdateApplied? ==>
      status == Ok200 &&
      table.rows == Replace(old(table.rows), id,
        ApplyAll(Find(old(table.rows), id).value, UpdateDecision(old(table.rows), caller, id, body).fields))
  {
    var out := UpdateDecision(table.rows, caller, id, body);
    if out.UpdateRejected? {
      return out.status;
    }
    UpdateAuthorization(table.rows, caller, id, body);
    UpdateFieldsWellFormed(table.rows, caller, id, body);
    var r := table.UpdateBooking(id, out.fields);
    return Ok200;
  }

  // ----------------------------------------------------------------- confirm

  /** The guard chain of `confirm_booking`: 404, then admins only, then pending only. */
  function ConfirmDecision(rows: seq<Booking>, caller: User, id: int): Status {
    var found := Find(rows, id);
    if found.None? then NotFound404
    else if !IsAdmin(caller) then Forbidden403
    else if found.value.status != STATUS_PENDING then BadRequest400
    else Ok200
  }

  /** A confirm succeeds exactly for an admin on an existing pending booking. */
  lemma ConfirmDecisionExact(rows: seq<Booking>, caller: User, id: int)
    ensures ConfirmDecision(rows, caller, id) == Ok200 <==>
      HasId(rows, id) && IsAdmin(caller) && Find(rows, id).value.status == STATUS_PENDING
    ensures ConfirmDecision(rows, caller, id) == Forbidden403 <==> HasId(rows, id) && !IsAdmin(caller)
  {
  }

  /** After a successful confirm, confirming again is refused with 400. */
  lemma ConfirmTwiceFails(rows: seq<Booking>, nextId: int, caller: User, id: int)
    requires IdsValid(rows, nextId) && ConfirmDecision(rows, caller, id) == Ok200
    ensures var after := Replace(rows, id, Find(rows, id).value.(status := STATUS_CONFIRMED));
      ConfirmDecision(after, caller, id) == BadRequest400
  {
    var b := Find(rows, id).value;
    var after := Replace(rows, id, b.(status := STATUS_CONFIRMED));
    var k :| 0 <= k < |rows| && rows[k] == b;
    ReplaceKeepsIds(rows, nextId, b.(status := STATUS_CONFIRMED));
    FindAt(after, nextId, k);
  }

  /** `POST /bookings/<id>/confirm`: the guards, then `confirm_booking` with no conflict re-check. */
  method ConfirmBookingEndpoint(table: BookingTable, caller: User, id: int) returns (status: Status)
    requires table.Valid()
    modifies table
    ensures table.Valid()
    ensures status == ConfirmDecision(old(table.rows), caller, id)
    ensures status != Ok200 ==> table.rows == old(table.rows)
    ensures status == Ok200 ==>
      table.rows == Replace(old(table.rows), id, Find(old(table.rows), id).value.(status := STATUS_CONFIRMED))
  {
    status := ConfirmDecision(table.rows, caller, id);
    if status == Ok200 {
      var r := table.ConfirmBooking(id);
    }
  }

  /**
   * Confirming does not preserve disjointness: two overlapping pending
   * bookings of one resource can both be created (neither conflicts with a
   * confirmed booking) and both be confirmed.
   */
  lemma ConfirmBreaksDisjointness()
    ensures var admin := User(1, "admin", "admin@example.edu", "Admin", ROLE_ADMIN, true);
      var a := Booking(1, 2, 7, 0, 10, STATUS_PENDING, None);
      var b := Booking(2, 3, 7, 5, 15, STATUS_PENDING, None);
      var req1 := CreateRequest(Some(7), At(0), At(10), None);
      var req2 := CreateRequest(Some(7), At(5), At(15), None);
      var rows := [a, b];
      var once := Replace(rows, 1, a.(status := STATUS_CONFIRMED));
      var twice := Replace(once, 2, b.(status := STATUS_CONFIRMED));
      CreateDecision([], {7}, Some(req1)) == CreatePending(7, 0, 10, None) &&
      CreateDecision([a], {7}, Some(req2)) == CreatePending(7, 5, 15, None) &&
      ConfirmedDisjoint(rows) &&
      ConfirmDecision(rows, admin, 1) == Ok200 &&
      ConfirmDecision(once, admin, 2) == Ok200 &&
      !ConfirmedDisjoint(twice)
  {
    OverlappingPendingCreated();
    OverlappingPendingConfirmed();
  }

  lemma OverlappingPendingCreated()
    ensures var a := Booking(1, 2, 7, 0, 10, STATUS_PENDING, None);
      CreateDecision([], {7}, Some(CreateRequest(Some(7), At(0), At(10), None))) == CreatePending(7, 0, 10, None) &&
      CreateDecision([a], {7}, Some(CreateRequest(Some(7), At(5), At(15), None))) == CreatePending(7, 5, 15, None)
  {
    var a := Booking(1, 2, 7, 0, 10, STATUS_PENDING, None);
    CheckConflictExact([], 7, 0, 10);
    CheckConflictExact([a], 7, 5, 15);
  }

  lemma OverlappingPendingConfirmed()
    ensures var admin := User(1, "admin", "admin@example.edu", "Admin", ROLE_ADMIN, true);
      var a := Booking(1, 2, 7, 0, 10, STATUS_PENDING, None);
      var b := Booking(2, 3, 7, 5, 15, STATUS_PENDING, None);
      var once := Replace([a, b], 1, a.(status := STATUS_CONFIRMED));
      var twice := Replace(once, 2, b.(status := STATUS_CONFIRMED));
      ConfirmedDisjoint([a, b]) &&
      ConfirmDecision([a, b], admin, 1) == Ok200 &&
      ConfirmDecision(once, admin, 2) == Ok200 &&
      !ConfirmedDisjoint(twice)
  {
    var a := Booking(1, 2, 7, 0, 10, STATUS_PENDING, None);
    var b := Booking(2, 3, 7, 5, 15, STATUS_PENDING, None);
    var once := Replace([a, b], 1, a.(status := STATUS_CONFIRMED));
    var twice := Replace(once, 2, b.(status := STATUS_CONFIRMED));
    assert once == [a.(status := STATUS_CONFIRMED), b];
    assert twice == [a.(status := STATUS_CONFIRMED), b.(status := STATUS_CONFIRMED)];
    assert Find(once, 2) == Some(b) by {
      assert once[1..] == [b];
    }
    assert Overlaps(twice[0].startTime, twice[0].endTime, twice[1].startTime, twice[1].endTime);
  }

  // ------------------------------------------------------------------ cancel

  /** The guard chain of `cancel_booking`: 404, then owner or admin; no check of the current status. */
  function CancelDecision(rows: seq<Booking>, caller: User, id: int): Status {
    var found := Find(rows, id);
    if found.None? then NotFound404
    else if !OwnerOrAdmin(caller, found.value) then Forbidden403
    else Ok200
  }

  /** Cancel succeeds for the owner or an admin whatever the booking's status, even twice. */
  lemma CancelIgnoresStatus(rows: seq<Booking>, nextId: int, caller: User, id: int)
    requires IdsValid(rows, nextId) && HasId(rows, id) && OwnerOrAdmin(caller, Find(rows, id).value)
    ensures CancelDecision(rows, caller, id) == Ok200
    ensures var after := Replace(rows, id, Find(rows, id).value.(status := STATUS_CANCELLED));
      CancelDecision(after, caller, id) == Ok200
  {
    var b := Find(rows, id).value;
    var after := Replace(rows, id, b.(status := STATUS_CANCELLED));
    var k :| 0 <= k < |rows| && rows[k] == b;
    ReplaceKeepsIds(rows, nextId, b.(status := STATUS_CANCELLED));
    FindAt(after, nextId, k);
  }

  /** `DELETE /bookings/<id>`: the guards, then `cancel_booking`. */
  method CancelBookingEndpoint(table: BookingTable, caller: User, id: int) returns (status: Status)
    requires table.Valid()
    modifies table
    ensures table.Valid()
    ensures status == CancelDecision(old(table.rows), caller, id)
    ensures status != Ok200 ==> table.rows == old(table.rows)
    ensures status == Ok200 ==>
      table.rows == Replace(old(table.rows), id, Find(old(table.rows), id).value.(status := STATUS_CANCELLED))
  {
    status := CancelDecision(table.rows, caller, id);
    if status == Ok200 {
      var r := table.CancelBooking(id);
    }
  }

  // -------------------------------------------------------------- list / get

  /** `list_bookings`: admins see all (or one status, when a non-empty one is given); others see their own. */
  function ListBookings(rows: seq<Booking>, caller: User, status: Option<string>, limit: nat, offset: nat): (r: seq<Booking>)
    ensures forall k :: 0 <= k < |r| ==> r[k] in rows
    ensures !IsAdmin(caller) ==> forall k :: 0 <= k < |r| ==> r[k].userId == caller.id
    ensures IsAdmin(caller) && status.Some? && status.value != "" ==>
      forall k :: 0 <= k < |r| ==> r[k].status == status.value
    ensures limit == 0 && offset == 0 && IsAdmin(caller) && (status.None? || status.value == "") ==>
      multiset(r) == multiset(rows)
    ensures limit == 0 && offset == 0 && IsAdmin(caller) && status.Some? && status.value != "" ==>
      forall b :: b in rows && b.status == status.value ==> b in r
    ensures limit == 0 && offset == 0 && !IsAdmin(caller) ==>
      forall b :: b in rows && b.userId == caller.id ==> b in r
  {
    if IsAdmin(caller) then
      if status.Some? && status.value != "" then ByStatus(rows, status.value, limit, offset)
      else AllBookings(rows, limit, offset)
    else ByUser(rows, caller.id, limit, offset)
  }

  /** `get_booking`: 404 for an unknown id, 403 unless owner or admin. */
  function GetBooking(rows: seq<Booking>, caller: User, id: int): (r: Result<Booking, Status>)
    ensures r.Ok? <==> HasId(rows, id) && OwnerOrAdmin(caller, Find(rows, id).value)
    ensures r.Ok? ==> r.value in rows && r.value.id == id && (IsAdmin(caller) || r.value.userId == caller.id)
    ensures r.Err? ==> (r.error == NotFound404 <==> !HasId(rows, id))
  {
    var found := Find(rows, id);
    if found.None? then Err(NotFound404)
    else if !OwnerOrAdmin(caller, found.value) then Err(Forbidden403)
    else Ok(found.value)
  }
}
