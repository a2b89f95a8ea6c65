/** The booking model: row insertion, status update and the read-only queries over the
    `bookings` table, including the availability (overlap) check. */
module BookingModel {
  import opened Common
  import opened Sorting
  import opened Schema

  /** The stored interval [b.start, b.end) meets the requested one: the two strict
      comparisons of the availability query. */
  predicate Overlaps(b: Booking, start: int, end: int)
  {
    b.start < end && b.end > start
  }

  /** `b` is one of the rows the availability query selects. */
  predicate Blocks(b: Booking, resourceId: int, date: int, start: int, end: int)
  {
    && b.resourceId == resourceId
    && b.date == date
    && b.status != Cancelled
    && Overlaps(b, start, end)
  }

  function Conflicts(s: seq<Booking>, resourceId: int, date: int, start: int, end: int): seq<Booking>
  {
    Filter(s, b => Blocks(b, resourceId, date, start, end))
  }

  /** `checkAvailability`: true when the overlap query returns no row. */
  function CheckAvailability(s: seq<Booking>, resourceId: int, date: int, start: int, end: int): (r: bool)
    ensures r <==> forall i :: 0 <= i < |s| ==> !Blocks(s[i], resourceId, date, start, end)
  {
    var c := Conflicts(s, resourceId, date, start, end);
    assert |c| > 0 ==> c[0] in s && Blocks(c[0], resourceId, date, start, end);
    |c| == 0
  }

  /** Overlap of two bookings does not depend on which one is stored. */
  lemma OverlapSymmetric(a: Booking, b: Booking)
    ensures Overlaps(a, b.start, b.end) <==> Overlaps(b, a.start, a.end)
  {
  }

  /** Back-to-back slots do not conflict: the comparisons are strict. */
  lemma BackToBackNeverBlocks(b: Booking, resourceId: int, date: int, start: int, end: int)
    requires end == b.start || start == b.end
    ensures !Blocks(b, resourceId, date, start, end)
  {
  }

  /** A cancelled booking, or one on another resource or another date, never changes
      the answer of the availability check, wherever it sits in the table. */
  lemma {:induction false} IrrelevantRowNeverBlocks(
    before: seq<Booking>, b: Booking, after: seq<Booking>,
    resourceId: int, date: int, start: int, end: int)
    requires b.status == Cancelled || b.resourceId != resourceId || b.date != date
    ensures CheckAvailability(before + [b] + after, resourceId, date, start, end)
        == CheckAvailability(before + after, resourceId, date, start, end)
  {
    var p := (x: Booking) => Blocks(x, resourceId, date, start, end);
    FilterAppend(before + [b], after, p);
    FilterAppend(before, [b], p);
    FilterAppend(before, after, p);
    assert Filter([b], p) == [];
  }

  /** The attendee-free example of back-to-back bookings: [10:00, 11:00) is stored, and
      [11:00, 12:00) on the same resource and date is still free; [10:30, 11:30) is not. */
  lemma {:induction false} BackToBackExample(b: Booking)
    requires b.start == 600 && b.end == 660 && b.status != Cancelled
    ensures CheckAvailability([b], b.resourceId, b.date, 660, 720)
    ensures !CheckAvailability([b], b.resourceId, b.date, 630, 690)
  {
    assert Blocks([b][0], b.resourceId, b.date, 630, 690);
  }

  /** The sequential form of the double-booking invariant: no non-cancelled booking is
      blocked by another row of the table. */
  ghost predicate NoDoubleBooking(s: seq<Booking>)
  {
    forall i, j :: 0 <= i < |s| && 0 <= j < |s| && i != j && s[j].status != Cancelled ==>
      !Blocks(s[i], s[j].resourceId, s[j].date, s[j].start, s[j].end)
  }

  /** Inserting a booking that passed the availability check keeps the table free of
      double bookings. */
  lemma InsertAfterCheckKeepsNoDoubleBooking(s: seq<Booking>, b: Booking)
    requires NoDoubleBooking(s)
    requires CheckAvailability(s, b.resourceId, b.date, b.start, b.end)
    ensures NoDoubleBooking(s + [b])
  {
    var t := s + [b];
    forall i, j | 0 <= i < |t| && 0 <= j < |t| && i != j && t[j].status != Cancelled
      ensures !Blocks(t[i], t[j].resourceId, t[j].date, t[j].start, t[j].end)
    {
      if i == |s| {
        assert !Blocks(s[j], b.resourceId, b.date, b.start, b.end);
        OverlapSymmetric(b, s[j]);
      } else if j != |s| {
        assert t[i] == s[i] && t[j] == s[j];
      }
    }
  }

  // Ordering of the list queries.

  /** Sort key of `ORDER BY booking_date DESC, start_time DESC`. */
  function DateStartDesc(b: Booking): seq<int>
  {
    [-b.date, -b.start]
  }

  /** Sort key of `ORDER BY booking_date DESC`. */
  function DateDesc(b: Booking): seq<int>
  {
    [-b.date]
  }

  predicate NewestFirst(s: seq<Booking>)
  {
    forall i, j :: 0 <= i < j < |s| ==>
      s[i].date > s[j].date || (s[i].date == s[j].date && s[i].start >= s[j].start)
  }

  lemma SortedByDateStartDescIsNewestFirst(s: seq<Booking>)
    requires SortedBy(s, DateStartDesc)
    ensures NewestFirst(s)
  {
    forall i, j | 0 <= i < j < |s|
      ensures s[i].date > s[j].date || (s[i].date == s[j].date && s[i].start >= s[j].start)
    {
      var a, b := DateStartDesc(s[i]), DateStartDesc(s[j]);
      assert LexLe(a, b);
      if a[0] == b[0] {
        assert LexLe(a[1..], b[1..]);
        assert a[1..] == [-s[i].start] && b[1..] == [-s[j].start];
        assert LexLe([-s[i].start], [-s[j].start]);
      }
    }
  }

  /** The rows whose owner is `userId`, in table order. */
  function OwnedBy(s: seq<Booking>, userId: int): seq<Booking>
  {
    Filter(s, (b: Booking) => b.userId == userId)
  }

  /** `findByUserId`: exactly the rows of that user, newest date first and, within a
      date, latest start first. */
  function FindByUserId(s: seq<Booking>, userId: int): (r: seq<Booking>)
    ensures multiset(r) == multiset(OwnedBy(s, userId))
    ensures forall b :: b in r <==> b in s && b.userId == userId
    ensures NewestFirst(r)
  {
    var owned := OwnedBy(s, userId);
    var r := SortBy(owned, DateStartDesc);
    SortedByDateStartDescIsNewestFirst(r);
    assert forall b :: b in r <==> b in owned by {
      forall b ensures b in r <==> b in owned {
        assert b in r <==> b in multiset(r);
      }
    }
    assert forall b :: b in owned <==> b in s && b.userId == userId by {
      forall b ensures b in owned <==> b in s && b.userId == userId {
        if b in s && b.userId == userId {
          var k :| 0 <= k < |s| && s[k] == b;
        }
        if b in owned {
          var k :| 0 <= k < |owned| && owned[k] == b;
        }
      }
    }
    r
  }

  /** `findAll`: every row, newest date first. */
  function FindAll(s: seq<Booking>): (r: seq<Booking>)
    ensures multiset(r) == multiset(s)
    ensures forall i, j :: 0 <= i < j < |r| ==> r[i].date >= r[j].date
  {
    var r := SortBy(s, DateDesc);
    assert forall i, j :: 0 <= i < j < |r| ==> r[i].date >= r[j].date by {
      forall i, j | 0 <= i < j < |r| ensures r[i].date >= r[j].date {
        assert LexLe(DateDesc(r[i]), DateDesc(r[j]));
      }
    }
    r
  }

  /** `findById`: the row with that primary key, if any. */
  function FindById(s: seq<Booking>, id: int): (r: Option<Booking>)
    ensures r.Some? <==> HasBooking(s, id)
    ensures r.Some? ==> r.value in s && r.value.id == id
  {
    if s == [] then None
    else if s[0].id == id then Some(s[0])
    else
      var r := FindById(s[1..], id);
      assert HasBooking(s, id) ==> HasBooking(s[1..], id) by {
        if HasBooking(s, id) {
          var b :| b in s && b.id == id;
          assert b != s[0];
          assert b in s[1..];
        }
      }
      r
  }

  /** With a primary key, the row `findById` returns is the only one with that id. */
  lemma {:induction false} FindByIdUnique(s: seq<Booking>, k: nat)
    requires forall i, j :: 0 <= i < j < |s| ==> s[i].id != s[j].id
    requires k < |s|
    ensures FindById(s, s[k].id) == Some(s[k])
  {
    if k > 0 {
      assert s[0].id != s[k].id;
      FindByIdUnique(s[1..], k - 1);
    }
  }

  // Writes.

  /** The table after `UPDATE bookings SET status = ? WHERE id = ?`. */
  function SetStatus(s: seq<Booking>, id: int, status: Status): (r: seq<Booking>)
    ensures |r| == |s|
  {
    seq(|s|, i requires 0 <= i < |s| => if s[i].id == id then s[i].(status := status) else s[i])
  }

  /** Only the status of the row with that id changes; every other column and row stays. */
  lemma SetStatusChangesOnlyStatus(s: seq<Booking>, id: int, status: Status, i: nat)
    requires i < |s|
    ensures SetStatus(s, id, status)[i].id == s[i].id
    ensures SetStatus(s, id, status)[i] == if s[i].id == id then s[i].(status := status) else s[i]
    ensures s[i].id != id ==> SetStatus(s, id, status)[i] == s[i]
  {
  }

  /** Setting the same status twice is the same as setting it once. */
  lemma SetStatusIdempotent(s: seq<Booking>, id: int, status: Status)
    ensures SetStatus(SetStatus(s, id, status), id, status) == SetStatus(s, id, status)
  {
  }

  /** Cancelling a booking never creates a double booking. */
  lemma CancelKeepsNoDoubleBooking(s: seq<Booking>, id: int)
    requires NoDoubleBooking(s)
    ensures NoDoubleBooking(SetStatus(s, id, Cancelled))
  {
    var t := SetStatus(s, id, Cancelled);
    forall i, j | 0 <= i < |t| && 0 <= j < |t| && i != j && t[j].status != Cancelled
      ensures !Blocks(t[i], t[j].resourceId, t[j].date, t[j].start, t[j].end)
    {
      assert t[j] == s[j];
      assert !Blocks(s[i], s[j].resourceId, s[j].date, s[j].start, s[j].end);
    }
  }

  /** The table after `UPDATE bookings SET attachment_url = ? WHERE id = ?`. */
  function SetAttachment(s: seq<Booking>, id: int, url: string): (r: seq<Booking>)
    ensures |r| == |s|
  {
    seq(|s|, i requires 0 <= i < |s| => if s[i].id == id then s[i].(attachmentUrl := Some(url)) else s[i])
  }

  lemma SetAttachmentKeepsNoDoubleBooking(s: seq<Booking>, id: int, url: string)
    requires NoDoubleBooking(s)
    ensures NoDoubleBooking(SetAttachment(s, id, url))
  {
    var t := SetAttachment(s, id, url);
    forall i, j | 0 <= i < |t| && 0 <= j < |t| && i != j && t[j].status != Cancelled
      ensures !Blocks(t[i], t[j].resourceId, t[j].date, t[j].start, t[j].end)
    {
      assert !Blocks(s[i], s[j].resourceId, s[j].date, s[j].start, s[j].end);
    }
  }

  /** A rewrite that keeps ids, owners and resources keeps every key lookup and foreign key. */
  lemma SameKeysKeepValid(db: Db, s: seq<Booking>)
    requires db.Valid()
    requires |s| == |db.bookings|
    requires forall i :: 0 <= i < |s| ==>
      s[i].id == db.bookings[i].id && s[i].userId == db.bookings[i].userId
      && s[i].resourceId == db.bookings[i].resourceId
    ensures BookingsOk(s, db.nextBookingId, db.users, db.resources)
    ensures AttendeesOk(db.attendees, s, db.users)
  {
    forall b | b in s ensures HasUser(db.users, b.userId) && HasResource(db.resources, b.resourceId) {
      var k :| 0 <= k < |s| && s[k] == b;
      assert db.bookings[k] in db.bookings;
    }
    forall a | a in db.attendees ensures HasBooking(s, a.bookingId) {
      var b :| b in db.bookings && b.id == a.bookingId;
      var k :| 0 <= k < |db.bookings| && db.bookings[k] == b;
      assert s[k] in s;
    }
  }

  /** `Booking.create`: inserts one row with the next id; the status is the column
      default 'pending'. The insert fails (and writes nothing) when a foreign key does
      not resolve. */
  method Create(
    db: Db, userId: nat, resourceId: int, date: int, start: int, end: int,
    notes: Option<string>, attachmentUrl: Option<string>, now: int)
    returns (id: Option<nat>)
    requires db.Valid()
    modifies db
    ensures db.Valid()
    ensures id.Some? <==> HasUser(old(db.users), userId) && HasResource(old(db.resources), resourceId)
    ensures id.Some? ==>
      && id.value == old(db.nextBookingId)
      && !HasBooking(old(db.bookings), id.value)
      && db.bookings == old(db.bookings) + [Booking(id.value, userId, resourceId as nat,
           date, start, end, Pending, notes, attachmentUrl, now)]
      && db.nextBookingId == old(db.nextBookingId) + 1
    ensures id.None? ==> db.bookings == old(db.bookings) && db.nextBookingId == old(db.nextBookingId)
    ensures db.users == old(db.users) && db.categories == old(db.categories)
    ensures db.resources == old(db.resources) && db.attendees == old(db.attendees)
    ensures db.nextUserId == old(db.nextUserId) && db.nextCategoryId == old(db.nextCategoryId)
    ensures db.nextResourceId == old(db.nextResourceId)
  {
    if !(HasUser(db.users, userId) && HasResource(db.resources, resourceId)) {
      return None;
    }
    var r :| r in db.resources && r.id == resourceId;
    var row := Booking(db.nextBookingId, userId, r.id, date, start, end, Pending, notes, attachmentUrl, now);
    forall b | b in db.bookings ensures b.id != row.id {
      var k :| 0 <= k < |db.bookings| && db.bookings[k] == b;
    }
    db.bookings := db.bookings + [row];
    db.nextBookingId := db.nextBookingId + 1;
    id := Some(row.id);
  }

  /** `Booking.updateStatus`: true when a row with that id was matched. */
  method UpdateStatus(db: Db, id: int, status: Status) returns (matched: bool)
    requires db.Valid()
    modifies db
    ensures db.Valid()
    ensures matched <==> HasBooking(old(db.bookings), id)
    ensures db.bookings == SetStatus(old(db.bookings), id, status)
    ensures db.users == old(db.users) && db.categories == old(db.categories)
    ensures db.resources == old(db.resources) && db.attendees == old(db.attendees)
    ensures db.nextUserId == old(db.nextUserId) && db.nextCategoryId == old(db.nextCategoryId)
    ensures db.nextResourceId == old(db.nextResourceId) && db.nextBookingId == old(db.nextBookingId)
  {
    matched := FindById(db.bookings, id).Some?;
    var s := SetStatus(db.bookings, id, status);
    SameKeysKeepValid(db, s);
    db.bookings := s;
  }
}
