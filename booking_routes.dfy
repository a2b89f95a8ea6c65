/** The `/api/bookings` handlers: listing, creation with the availability check and the
    attendee batch, cancellation by owner or admin, and the attachment upload. Each
    handler is one atomic step on the shared tables; a thrown database error becomes
    the 500 reply of the handler's `catch`. */
module BookingRoutes {
  import opened Common
  import opened Schema
  import opened BookingModel
  import Multer = Upload

  /** GET `/`: the caller's own bookings, newest first. */
  function GetMine(s: seq<Booking>, caller: Caller): (r: Reply<seq<Booking>>)
    ensures r.Json? && r.status == 200
    ensures forall b :: b in r.value <==> b in s && b.userId == caller.id
    ensures NewestFirst(r.value)
  {
    Json(200, FindByUserId(s, caller.id))
  }

  /** GET `/all`: every booking, for administrators only. */
  function GetAll(s: seq<Booking>, caller: Caller): (r: Reply<seq<Booking>>)
    ensures !IsAdmin(caller) <==> r == Message(403, "Access denied")
    ensures IsAdmin(caller) ==> r.Json? && r.status == 200 && multiset(r.value) == multiset(s)
  {
    if caller.role != "admin" then Message(403, "Access denied") else Json(200, FindAll(s))
  }

  /** The user id MySQL stores for one element of `attendee_ids` in the INT column: a
      non-negative number as it is, a string of decimal digits converted to its value;
      `None` for anything else. */
  function AttendeeUserId(v: JsValue): (r: Option<nat>)
    ensures v.Num? && v.n >= 0 ==> r == Some(v.n as nat)
    ensures v.Str? && v.s != "" && AllDigits(v.s) ==> r == Some(DigitsValue(v.s))
    ensures !(v.Num? || v.Str?) ==> r.None?
  {
    match v
    case Num(n) => if n >= 0 then Some(n as nat) else None
    case Str(s) => if s != "" && AllDigits(s) then Some(DigitsValue(s)) else None
    case _ => None
  }

  /** The rows `attendee_ids.map(userId => [bookingId, userId])` asks to insert: one per
      element, duplicates included; `None` when an element is not a user id at all. */
  function AttendeeRows(bookingId: nat, ids: seq<JsValue>): (r: Option<seq<Attendee>>)
    ensures r.Some? <==> forall i :: 0 <= i < |ids| ==> AttendeeUserId(ids[i]).Some?
    ensures r.Some? ==> |r.value| == |ids|
    ensures r.Some? ==> forall i :: 0 <= i < |ids| ==>
      r.value[i].bookingId == bookingId && r.value[i].userId == AttendeeUserId(ids[i]).value
      && r.value[i].status == RsvpPending
  {
    if ids == [] then Some([])
    else if AttendeeUserId(ids[0]).None? then None
    else
      match AttendeeRows(bookingId, ids[1..])
      case None => None
      case Some(rest) => Some([Attendee(bookingId, AttendeeUserId(ids[0]).value, RsvpPending)] + rest)
  }

  /** The id 3 and the text "3" name the same attendee. */
  lemma NumericTextIsSameAttendee(bookingId: nat)
    ensures AttendeeRows(bookingId, [Num(3), Str("3")]) ==
      Some([Attendee(bookingId, 3, RsvpPending), Attendee(bookingId, 3, RsvpPending)])
  {
    assert AllDigits("3");
    assert "3"[..0] == "";
    assert DigitsValue("3") == 3;
    var ids := [Num(3), Str("3")];
    assert AttendeeUserId(ids[0]) == Some(3) && AttendeeUserId(ids[1]) == Some(3);
    var r := AttendeeRows(bookingId, ids).value;
    assert |r| == 2;
    assert r[0] == Attendee(bookingId, 3, RsvpPending) && r[1] == Attendee(bookingId, 3, RsvpPending);
    assert r == [r[0], r[1]];
  }

  /** Two attendee rows with the same composite key. */
  predicate SameKey(a: Attendee, b: Attendee)
  {
    a.bookingId == b.bookingId && a.userId == b.userId
  }

  /** The constraints a multi-row `INSERT INTO booking_attendees` must meet to succeed:
      every foreign key resolves and no composite key repeats, within the batch or
      against the rows already stored. */
  predicate BatchAccepted(existing: seq<Attendee>, rows: seq<Attendee>, bookings: seq<Booking>, users: seq<User>)
  {
    && (forall i :: 0 <= i < |rows| ==> HasBooking(bookings, rows[i].bookingId) && HasUser(users, rows[i].userId))
    && (forall i, j :: 0 <= i < j < |rows| ==> !SameKey(rows[i], rows[j]))
    && (forall i, j :: 0 <= i < |existing| && 0 <= j < |rows| ==> !SameKey(existing[i], rows[j]))
  }

  /** A repeated attendee id (such as 3 and "3") can never be inserted: the rows are not
      deduplicated, so they clash on the composite key. */
  lemma DuplicateAttendeeRejected(
    existing: seq<Attendee>, bookingId: nat, ids: seq<JsValue>, bookings: seq<Booking>, users: seq<User>,
    i: nat, j: nat)
    requires i < j < |ids| && AttendeeUserId(ids[i]) == AttendeeUserId(ids[j])
    requires AttendeeRows(bookingId, ids).Some?
    ensures !BatchAccepted(existing, AttendeeRows(bookingId, ids).value, bookings, users)
  {
    var rows := AttendeeRows(bookingId, ids).value;
    assert SameKey(rows[i], rows[j]);
  }

  /** `INSERT INTO booking_attendees (booking_id, user_id) VALUES ?`: one statement, so
      it inserts every row or none. */
  method InsertAttendees(db: Db, rows: seq<Attendee>) returns (ok: bool)
    requires db.Valid()
    modifies db
    ensures db.Valid()
    ensures ok <==> BatchAccepted(old(db.attendees), rows, old(db.bookings), old(db.users))
    ensures ok ==> db.attendees == old(db.attendees) + rows
    ensures !ok ==> db.attendees == old(db.attendees)
    ensures db.users == old(db.users) && db.categories == old(db.categories)
    ensures db.resources == old(db.resources) && db.bookings == old(db.bookings)
    ensures db.nextUserId == old(db.nextUserId) && db.nextCategoryId == old(db.nextCategoryId)
    ensures db.nextResourceId == old(db.nextResourceId) && db.nextBookingId == old(db.nextBookingId)
  {
    ok := BatchAccepted(db.attendees, rows, db.bookings, db.users);
    if ok {
      var t := db.attendees + rows;
      forall a | a in t ensures HasBooking(db.bookings, a.bookingId) && HasUser(db.users, a.userId) {
        if a !in db.attendees {
          var k :| 0 <= k < |rows| && rows[k] == a;
        }
      }
      forall i, j | 0 <= i < j < |t| ensures (t[i].bookingId, t[i].userId) != (t[j].bookingId, t[j].userId) {
        if j >= |db.attendees| {
          if i >= |db.attendees| {
            assert !SameKey(rows[i - |db.attendees|], rows[j - |db.attendees|]);
          } else {
            assert !SameKey(db.attendees[i], rows[j - |db.attendees|]);
          }
        }
      }
      db.attendees := t;
    }
  }

  /** The `attendee_ids && Array.isArray(attendee_ids)` and `values.length > 0` tests:
      the list of ids to insert, when there is one. */
  function AttendeeIds(v: JsValue): (r: Option<seq<JsValue>>)
    ensures r.Some? <==> v.Arr? && |v.items| > 0
    ensures r.Some? ==> r.value == v.items
  {
    if v.Arr? && |v.items| > 0 then Some(v.items) else None
  }

  /** The row the create handler inserts for the caller. */
  function NewRow(id: nat, caller: Caller, resourceId: nat, date: int, start: int, end: int,
                  notes: Option<string>, now: int): Booking
  {
    Booking(id, caller.id, resourceId, date, start, end, Pending, notes, None, now)
  }

  /** POST `/`: checks availability, inserts the booking for the caller, then inserts the
      attendee rows. The booking is not rolled back when the attendee insert fails. */
  method PostBooking(
    db: Db, caller: Caller, resourceId: int, date: int, start: int, end: int,
    notes: Option<string>, attendeeIds: JsValue, now: int)
    returns (reply: Reply<Booking>)
    requires db.Valid()
    modifies db
    ensures db.Valid()
    // An unavailable slot: 400 and nothing is written.
    ensures !CheckAvailability(old(db.bookings), resourceId, date, start, end) ==>
      && reply == Message(400, "Resource is not available at this time")
      && db.bookings == old(db.bookings) && db.attendees == old(db.attendees)
      && db.nextBookingId == old(db.nextBookingId)
    // The booking insert fails on a foreign key: 500 and nothing is written.
    ensures (CheckAvailability(old(db.bookings), resourceId, date, start, end)
             && !(HasUser(old(db.users), caller.id) && HasResource(old(db.resources), resourceId))) ==>
      && reply == ServerError
      && db.bookings == old(db.bookings) && db.attendees == old(db.attendees)
      && db.nextBookingId == old(db.nextBookingId)
    // Otherwise exactly one booking row is appended, owned by the caller, whatever
    // happens to the attendees afterwards.
    ensures (CheckAvailability(old(db.bookings), resourceId, date, start, end)
             && HasUser(old(db.users), caller.id) && HasResource(old(db.resources), resourceId)) ==>
      var row := NewRow(old(db.nextBookingId), caller, resourceId as nat, date, start, end, notes, now);
      var ids := AttendeeIds(attendeeIds);
      && db.bookings == old(db.bookings) + [row]
      && db.nextBookingId == old(db.nextBookingId) + 1
      && (ids.None? ==> reply == Json(201, row) && db.attendees == old(db.attendees))
      && (ids.Some? ==>
            var rows := AttendeeRows(row.id, ids.value);
            if rows.Some? && BatchAccepted(old(db.attendees), rows.value, db.bookings, old(db.users))
            then reply == Json(201, row) && db.attendees == old(db.attendees) + rows.value
            else reply == ServerError && db.attendees == old(db.attendees))
    // A slot that passed the check keeps the table free of double bookings.
    ensures NoDoubleBooking(old(db.bookings)) ==> NoDoubleBooking(db.bookings)
    ensures db.users == old(db.users) && db.categories == old(db.categories)
    ensures db.resources == old(db.resources)
    ensures db.nextUserId == old(db.nextUserId) && db.nextCategoryId == old(db.nextCategoryId)
    ensures db.nextResourceId == old(db.nextResourceId)
  {
    var available := CheckAvailability(db.bookings, resourceId, date, start, end);
    if !available {
      return Message(400, "Resource is not available at this time");
    }
    ghost var before := db.bookings;
    var id := Create(db, caller.id, resourceId, date, start, end, notes, None, now);
    if id.None? {
      return ServerError;
    }
    var row := NewRow(id.value, caller, resourceId as nat, date, start, end, notes, now);
    assert db.bookings == before + [row];
    if NoDoubleBooking(before) {
      InsertAfterCheckKeepsNoDoubleBooking(before, row);
    }
    var ids := AttendeeIds(attendeeIds);
    if ids.Some? {
      var rows := AttendeeRows(id.value, ids.value);
      if rows.None? {
        return ServerError;
      }
      var ok := InsertAttendees(db, rows.value);
      if !ok {
        return ServerError;
      }
    }
    FindByIdUnique(db.bookings, |db.bookings| - 1);
    var found := FindById(db.bookings, id.value);
    reply := Json(201, found.value);
  }

  /** DELETE `/:id`: the owner or an administrator cancels the booking. */
  method Cancel(db: Db, caller: Caller, id: int) returns (reply: Reply<()>)
    requires db.Valid()
    modifies db
    ensures db.Valid()
    ensures !HasBooking(old(db.bookings), id) ==>
      reply == Message(404, "Booking not found") && db.bookings == old(db.bookings)
    ensures (HasBooking(old(db.bookings), id) && FindById(old(db.bookings), id).value.userId != caller.id
             && !IsAdmin(caller)) ==>
      reply == Message(403, "Access denied") && db.bookings == old(db.bookings)
    ensures (HasBooking(old(db.bookings), id)
             && (FindById(old(db.bookings), id).value.userId == caller.id || IsAdmin(caller))) ==>
      reply == Message(200, "Booking cancelled") && db.bookings == SetStatus(old(db.bookings), id, Cancelled)
    ensures NoDoubleBooking(old(db.bookings)) ==> NoDoubleBooking(db.bookings)
    ensures db.users == old(db.users) && db.categories == old(db.categories)
    ensures db.resources == old(db.resources) && db.attendees == old(db.attendees)
    ensures db.nextUserId == old(db.nextUserId) && db.nextCategoryId == old(db.nextCategoryId)
    ensures db.nextResourceId == old(db.nextResourceId) && db.nextBookingId == old(db.nextBookingId)
  {
    var booking := FindById(db.bookings, id);
    if booking.None? {
      return Message(404, "Booking not found");
    }
    if booking.value.userId != caller.id && caller.role != "admin" {
      return Message(403, "Access denied");
    }
    ghost var before := db.bookings;
    var _ := UpdateStatus(db, id, Cancelled);
    if NoDoubleBooking(before) {
      CancelKeepsNoDoubleBooking(before, id);
    }
    reply := Message(200, "Booking cancelled");
  }

  /** A second authorised cancel succeeds again and leaves the table as the first left it. */
  lemma CancelIdempotent(s: seq<Booking>, id: int)
    requires HasBooking(s, id)
    ensures HasBooking(SetStatus(s, id, Cancelled), id)
    ensures FindById(SetStatus(s, id, Cancelled), id).value.userId == FindById(s, id).value.userId
    ensures SetStatus(SetStatus(s, id, Cancelled), id, Cancelled) == SetStatus(s, id, Cancelled)
  {
    var t := SetStatus(s, id, Cancelled);
    var b :| b in s && b.id == id;
    var k :| 0 <= k < |s| && s[k] == b;
    assert t[k].id == id;
    FindOwnerAfterSetStatus(s, id, Cancelled);
  }

  /** Rewriting a status keeps the row `findById` finds, and its owner. */
  lemma {:induction false} FindOwnerAfterSetStatus(s: seq<Booking>, id: int, status: Status)
    requires HasBooking(s, id)
    ensures FindById(SetStatus(s, id, status), id) == Some(FindById(s, id).value.(status := status))
  {
    var t := SetStatus(s, id, status);
    if s[0].id != id {
      assert HasBooking(s[1..], id) by {
        var b :| b in s && b.id == id;
        assert b in s[1..];
      }
      assert t[1..] == SetStatus(s[1..], id, status);
      FindOwnerAfterSetStatus(s[1..], id, status);
    }
  }

  /** The JSON body of a successful upload. */
  datatype Uploaded = Uploaded(message: string, fileUrl: string)

  /** POST `/:id/upload`: stores the uploaded file's URL on the booking. A file over the
      size limit never reaches the handler; a file without a `location` (disk storage)
      binds `undefined`, so the statement is refused (500). There is no ownership or
      existence check, so success is reported even when no row matches. */
  method Upload(db: Db, id: int, file: Option<Multer.IncomingFile>) returns (reply: Reply<Uploaded>)
    requires db.Valid()
    modifies db
    ensures db.Valid()
    ensures Multer.TooLarge(file) ==>
      reply == Multer.ErrorHandlerReply() && db.bookings == old(db.bookings)
    ensures file.None? ==>
      reply == Message(400, "No file uploaded") && db.bookings == old(db.bookings)
    ensures file.Some? && !Multer.TooLarge(file) && file.value.location.None? ==>
      reply == ServerError && db.bookings == old(db.bookings)
    ensures file.Some? && !Multer.TooLarge(file) && file.value.location.Some? ==>
      && reply == Json(200, Uploaded("File uploaded successfully", file.value.location.value))
      && db.bookings == SetAttachment(old(db.bookings), id, file.value.location.value)
    ensures NoDoubleBooking(old(db.bookings)) ==> NoDoubleBooking(db.bookings)
    ensures db.users == old(db.users) && db.categories == old(db.categories)
    ensures db.resources == old(db.resources) && db.attendees == old(db.attendees)
    ensures db.nextUserId == old(db.nextUserId) && db.nextCategoryId == old(db.nextCategoryId)
    ensures db.nextResourceId == old(db.nextResourceId) && db.nextBookingId == old(db.nextBookingId)
  {
    if Multer.TooLarge(file) {
      return Multer.ErrorHandlerReply();
    }
    if file.None? {
      return Message(400, "No file uploaded");
    }
    if file.value.location.None? {
      return ServerError;
    }
    var url := file.value.location.value;
    var s := SetAttachment(db.bookings, id, url);
    SameKeysKeepValid(db, s);
    if NoDoubleBooking(db.bookings) {
      SetAttachmentKeepsNoDoubleBooking(db.bookings, id, url);
    }
    db.bookings := s;
    reply := Json(200, Uploaded("File uploaded successfully", url));
  }
}
