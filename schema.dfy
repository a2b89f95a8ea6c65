/** The relational schema: one datatype per table row and the `Db` object that holds
    every table, with the keys, uniqueness constraints and foreign keys the schema
    declares. Dates, times and timestamps are integers ordered as MySQL orders the
    corresponding DATE, TIME and TIMESTAMP values. */
module Schema {
  import opened Common

  datatype Status = Pending | Confirmed | Cancelled | Completed

  datatype Rsvp = RsvpPending | Accepted | Declined

  datatype User = User(
    id: nat, name: string, email: string, passwordHash: string, role: string,
    profilePicture: Option<string>, createdAt: int)

  datatype Category = Category(id: nat, name: string, description: Option<string>)

  datatype Resource = Resource(
    id: nat, name: string, description: Option<string>, kind: string,
    capacity: Option<int>, location: Option<string>, imageUrl: Option<string>,
    isActive: Option<bool>, categoryId: Option<nat>)

  datatype Booking = Booking(
    id: nat, userId: nat, resourceId: nat, date: int, start: int, end: int,
    status: Status, notes: Option<string>, attachmentUrl: Option<string>, createdAt: int)

  /** A row of `booking_attendees`. */
  datatype Attendee = Attendee(bookingId: nat, userId: nat, status: Rsvp)

  /** The caller as the authentication middleware supplies it (`req.user`). */
  datatype Caller = Caller(id: nat, role: string)

  predicate IsAdmin(c: Caller)
  {
    c.role == "admin"
  }

  // Key lookups.

  predicate HasUser(s: seq<User>, id: int)
  {
    exists u :: u in s && u.id == id
  }

  predicate HasCategory(s: seq<Category>, id: int)
  {
    exists c :: c in s && c.id == id
  }

  predicate HasResource(s: seq<Resource>, id: int)
  {
    exists r :: r in s && r.id == id
  }

  predicate HasBooking(s: seq<Booking>, id: int)
  {
    exists b :: b in s && b.id == id
  }

  // Table constraints.

  /** `users`: primary key, AUTO_INCREMENT counter, UNIQUE email. */
  ghost predicate UsersOk(s: seq<User>, next: nat)
  {
    && (forall i :: 0 <= i < |s| ==> s[i].id < next)
    && (forall i, j :: 0 <= i < j < |s| ==> s[i].id != s[j].id && s[i].email != s[j].email)
  }

  /** `resource_categories`: primary key, counter, UNIQUE name. */
  ghost predicate CategoriesOk(s: seq<Category>, next: nat)
  {
    && (forall i :: 0 <= i < |s| ==> s[i].id < next)
    && (forall i, j :: 0 <= i < j < |s| ==> s[i].id != s[j].id && s[i].name != s[j].name)
  }

  /** `resources`: primary key, counter, `category_id` references a category. */
  ghost predicate ResourcesOk(s: seq<Resource>, next: nat, cats: seq<Category>)
  {
    && (forall i :: 0 <= i < |s| ==> s[i].id < next)
    && (forall i, j :: 0 <= i < j < |s| ==> s[i].id != s[j].id)
    && (forall r :: r in s && r.categoryId.Some? ==> HasCategory(cats, r.categoryId.value))
  }

  /** `bookings`: primary key, counter, `user_id` and `resource_id` reference rows. */
  ghost predicate BookingsOk(s: seq<Booking>, next: nat, users: seq<User>, res: seq<Resource>)
  {
    && (forall i :: 0 <= i < |s| ==> s[i].id < next)
    && (forall i, j :: 0 <= i < j < |s| ==> s[i].id != s[j].id)
    && (forall b :: b in s ==> HasUser(users, b.userId) && HasResource(res, b.resourceId))
  }

  /** `booking_attendees`: composite primary key, both columns reference rows. */
  ghost predicate AttendeesOk(s: seq<Attendee>, bookings: seq<Booking>, users: seq<User>)
  {
    && (forall i, j :: 0 <= i < j < |s| ==>
          (s[i].bookingId, s[i].userId) != (s[j].bookingId, s[j].userId))
    && (forall a :: a in s ==> HasBooking(bookings, a.bookingId) && HasUser(users, a.userId))
  }

  /** The shared database (the connection pool's tables). */
  class Db {
    var users: seq<User>
    var categories: seq<Category>
    var resources: seq<Resource>
    var bookings: seq<Booking>
    var attendees: seq<Attendee>
    var nextUserId: nat
    var nextCategoryId: nat
    var nextResourceId: nat
    var nextBookingId: nat

    ghost predicate Valid()
      reads this
    {
      && UsersOk(users, nextUserId)
      && CategoriesOk(categories, nextCategoryId)
      && ResourcesOk(resources, nextResourceId, categories)
      && BookingsOk(bookings, nextBookingId, users, resources)
      && AttendeesOk(attendees, bookings, users)
    }

    /** A freshly created, empty schema. */
    constructor ()
      ensures Valid()
      ensures users == [] && categories == [] && resources == []
      ensures bookings == [] && attendees == []
    {
      users, categories, resources, bookings, attendees := [], [], [], [], [];
      nextUserId, nextCategoryId, nextResourceId, nextBookingId := 1, 1, 1, 1;
    }
  }
}
