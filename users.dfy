/** The user directory: insertion with the role default, lookups by email and by id, and
    the column assignments the partial updates build. */
module UserModel {
  import opened Common
  import opened Schema

  /** `role || 'user'`. */
  function RoleOrDefault(role: Option<string>): (r: string)
    ensures Present(role) ==> r == role.value
    ensures !Present(role) ==> r == "user"
  {
    if Present(role) then role.value else "user"
  }

  predicate EmailTaken(s: seq<User>, email: string)
  {
    exists u :: u in s && u.email == email
  }

  /** `SELECT * FROM users WHERE email = ?`, first row. */
  function FindByEmail(s: seq<User>, email: string): (r: Option<User>)
    ensures r.Some? <==> EmailTaken(s, email)
    ensures r.Some? ==> r.value in s && r.value.email == email
  {
    if s == [] then None
    else if s[0].email == email then Some(s[0])
    else
      assert EmailTaken(s, email) ==> EmailTaken(s[1..], email) by {
        if EmailTaken(s, email) {
          var u :| u in s && u.email == email;
          assert u != s[0];
          assert u in s[1..];
        }
      }
      FindByEmail(s[1..], email)
  }

  /** With the UNIQUE email, the user `findByEmail` returns is the only one with it. */
  lemma {:induction false} FindByEmailUnique(s: seq<User>, next: nat, k: nat)
    requires UsersOk(s, next) && k < |s|
    ensures FindByEmail(s, s[k].email) == Some(s[k])
  {
    if k > 0 {
      assert s[0].email != s[k].email;
      assert UsersOk(s[1..], next) by {
        forall i, j | 0 <= i < j < |s[1..]|
          ensures s[1..][i].id != s[1..][j].id && s[1..][i].email != s[1..][j].email
        {
          assert s[1..][i] == s[i + 1] && s[1..][j] == s[j + 1];
        }
      }
      FindByEmailUnique(s[1..], next, k - 1);
    }
  }

  function FindRow(s: seq<User>, id: int): (r: Option<User>)
    ensures r.Some? <==> HasUser(s, id)
    ensures r.Some? ==> r.value in s && r.value.id == id
  {
    if s == [] then None
    else if s[0].id == id then Some(s[0])
    else
      assert HasUser(s, id) ==> HasUser(s[1..], id) by {
        if HasUser(s, id) {
          var u :| u in s && u.id == id;
          assert u != s[0];
          assert u in s[1..];
        }
      }
      FindRow(s[1..], id)
  }

  /** The columns `findById` selects: everything but the password hash. */
  datatype Profile = Profile(
    id: nat, name: string, email: string, role: string, profilePicture: Option<string>, createdAt: int)

  function ProfileOf(u: User): Profile
  {
    Profile(u.id, u.name, u.email, u.role, u.profilePicture, u.createdAt)
  }

  /** `User.findById`: the projection of the row with that id. */
  function FindById(s: seq<User>, id: int): (r: Option<Profile>)
    ensures r.Some? <==> HasUser(s, id)
    ensures r.Some? ==> exists u :: u in s && u.id == id && r.value == ProfileOf(u)
  {
    match FindRow(s, id)
    case None => None
    case Some(u) => Some(ProfileOf(u))
  }

  /** One `SET` item of a partial `UPDATE users`. */
  datatype Assignment =
    | SetRole(role: string)
    | SetName(name: string)
    | SetProfilePicture(url: string)
    | SetPasswordHash(hash: string)

  function Apply(u: User, a: Assignment): (r: User)
    ensures r.id == u.id && r.email == u.email && r.createdAt == u.createdAt
    ensures !a.SetPasswordHash? ==> r.passwordHash == u.passwordHash
  {
    match a
    case SetRole(role) => u.(role := role)
    case SetName(name) => u.(name := name)
    case SetProfilePicture(url) => u.(profilePicture := Some(url))
    case SetPasswordHash(hash) => u.(passwordHash := hash)
  }

  /** The row after `SET <fields joined by ', '>`, applied in order. */
  function ApplyAll(u: User, fields: seq<Assignment>): (r: User)
    ensures r.id == u.id && r.email == u.email && r.createdAt == u.createdAt
    ensures (forall a :: a in fields ==> !a.SetPasswordHash?) ==> r.passwordHash == u.passwordHash
    decreases fields
  {
    if fields == [] then u else ApplyAll(Apply(u, fields[0]), fields[1..])
  }

  /** The table after `UPDATE users SET <fields> WHERE id = ?`. */
  function UpdateRows(s: seq<User>, id: int, fields: seq<Assignment>): (r: seq<User>)
    ensures |r| == |s|
    ensures forall k :: 0 <= k < |s| ==> r[k] == if s[k].id == id then ApplyAll(s[k], fields) else s[k]
  {
    seq(|s|, k requires 0 <= k < |s| => if s[k].id == id then ApplyAll(s[k], fields) else s[k])
  }

  /** An update, which never touches ids or emails, keeps the table's constraints and every
      foreign key into it. */
  lemma UpdateKeepsValid(db: Db, fields: seq<Assignment>, id: int)
    requires db.Valid()
    ensures UsersOk(UpdateRows(db.users, id, fields), db.nextUserId)
    ensures BookingsOk(db.bookings, db.nextBookingId, UpdateRows(db.users, id, fields), db.resources)
    ensures AttendeesOk(db.attendees, db.bookings, UpdateRows(db.users, id, fields))
  {
    var s := UpdateRows(db.users, id, fields);
    forall uid | HasUser(db.users, uid) ensures HasUser(s, uid) {
      var u :| u in db.users && u.id == uid;
      var k :| 0 <= k < |db.users| && db.users[k] == u;
      assert s[k] in s;
    }
  }

  /** `User.create`: inserts one row with `role || 'user'` and returns its id. It checks
      nothing itself; only the UNIQUE email can refuse the insert. */
  method Create(db: Db, name: string, email: string, passwordHash: string, role: Option<string>, now: int)
    returns (id: Option<nat>)
    requires db.Valid()
    modifies db
    ensures db.Valid()
    ensures id.Some? <==> !EmailTaken(old(db.users), email)
    ensures id.Some? ==>
      && id.value == old(db.nextUserId)
      && db.users == old(db.users) + [User(id.value, name, email, passwordHash, RoleOrDefault(role), None, now)]
      && db.nextUserId == old(db.nextUserId) + 1
    ensures id.None? ==> db.users == old(db.users) && db.nextUserId == old(db.nextUserId)
    ensures db.categories == old(db.categories) && db.resources == old(db.resources)
    ensures db.bookings == old(db.bookings) && db.attendees == old(db.attendees)
  {
    if EmailTaken(db.users, email) {
      return None;
    }
    var row := User(db.nextUserId, name, email, passwordHash, RoleOrDefault(role), None, now);
    assert forall u :: u in db.users ==> u.id != row.id && u.email != row.email by {
      forall u | u in db.users ensures u.id != row.id && u.email != row.email {
        var k :| 0 <= k < |db.users| && db.users[k] == u;
      }
    }
    db.users := db.users + [row];
    db.nextUserId := db.nextUserId + 1;
    assert forall uid :: HasUser(old(db.users), uid) ==> HasUser(db.users, uid) by {
      forall uid | HasUser(old(db.users), uid) ensures HasUser(db.users, uid) {
        var u :| u in old(db.users) && u.id == uid;
        assert u in db.users;
      }
    }
    id := Some(row.id);
  }
}

/** The `/api/users` handlers: admin creation, partial update, the directory listing and
    deletion with the self-delete guard. */
module UserRoutes {
  import opened Common
  import opened Sorting
  import opened Schema
  import opened UserModel

  /** The row with the truthy ones of `role` and `name` taken over. */
  function Patched(u: User, role: Option<string>, name: Option<string>): User
  {
    u.(role := if Present(role) then role.value else u.role,
       name := if Present(name) then name.value else u.name)
  }

  /** PUT `/:id`: the `fields` list, one push per truthy body field, role first. Its
      effect on a row is to take the supplied role and name and keep everything else. */
  method BuildRoleNameFields(role: Option<string>, name: Option<string>) returns (fields: seq<Assignment>)
    ensures (|fields| == 0) <==> !Present(role) && !Present(name)
    ensures forall u :: ApplyAll(u, fields) == Patched(u, role, name)
  {
    fields := [];
    if Present(role) {
      fields := fields + [SetRole(role.value)];
    }
    if Present(name) {
      fields := fields + [SetName(name.value)];
    }
    forall u ensures ApplyAll(u, fields) == Patched(u, role, name) {
      RoleNameFieldsEffect(u, role, name, fields);
    }
  }

  lemma RoleNameFieldsEffect(u: User, role: Option<string>, name: Option<string>, fields: seq<Assignment>)
    requires fields == (if Present(role) then [SetRole(role.value)] else []) + (if Present(name) then [SetName(name.value)] else [])
    ensures ApplyAll(u, fields) == Patched(u, role, name)
  {
    if Present(role) && Present(name) {
      assert fields[1..] == [SetName(name.value)];
      assert ApplyAll(u, fields) == ApplyAll(u.(role := role.value), [SetName(name.value)]);
      assert [SetName(name.value)][1..] == [];
    } else if Present(role) {
      assert fields == [SetRole(role.value)];
      assert fields[1..] == [];
    } else if Present(name) {
      assert fields == [SetName(name.value)];
      assert fields[1..] == [];
    }
  }

  /** POST `/`: an administrator adds a user unless the email is taken. `hash` stands for
      `bcrypt.hash(password, salt)` of a string password. A missing email or name makes the
      query or the insert throw, and a password that is not a string (missing, a number,
      an array) makes the hash reject: 500 either way. */
  method AdminCreate(
    db: Db, caller: Caller, name: Option<string>, email: Option<string>, password: JsValue,
    role: Option<string>, hash: string, now: int)
    returns (reply: Reply<()>)
    requires db.Valid()
    modifies db
    ensures db.Valid()
    ensures !IsAdmin(caller) ==> reply == Denied && db.users == old(db.users)
    ensures IsAdmin(caller) && email.None? ==> reply == ServerError && db.users == old(db.users)
    ensures IsAdmin(caller) && email.Some? && EmailTaken(old(db.users), email.value) ==>
      reply == Message(400, "User already exists") && db.users == old(db.users)
    ensures (IsAdmin(caller) && email.Some? && !EmailTaken(old(db.users), email.value)
             && (!password.Str? || name.None?)) ==>
      reply == ServerError && db.users == old(db.users)
    ensures (IsAdmin(caller) && email.Some? && !EmailTaken(old(db.users), email.value)
             && password.Str? && name.Some?) ==>
      && reply == Message(201, "User created successfully")
      && db.users == old(db.users) + [User(old(db.nextUserId), name.value, email.value, hash, RoleOrDefault(role), None, now)]
    ensures db.categories == old(db.categories) && db.resources == old(db.resources)
    ensures db.bookings == old(db.bookings) && db.attendees == old(db.attendees)
  {
    if caller.role != "admin" {
      return Denied;
    }
    if email.None? {
      return ServerError;
    }
    var existing := FindByEmail(db.users, email.value);
    if existing.Some? {
      return Message(400, "User already exists");
    }
    if !password.Str? || name.None? {
      return ServerError;
    }
    var id := Create(db, name.value, email.value, hash, role, now);
    reply := Message(201, "User created successfully");
  }

  /** PUT `/:id`: sets the truthy ones of role and name; with neither no statement runs.
      Success is reported either way, whether or not the id exists. */
  method Update(db: Db, caller: Caller, id: int, role: Option<string>, name: Option<string>)
    returns (reply: Reply<()>)
    requires db.Valid()
    modifies db
    ensures db.Valid()
    ensures !IsAdmin(caller) ==> reply == Denied && db.users == old(db.users)
    ensures IsAdmin(caller) ==> reply == Message(200, "User updated successfully")
    ensures IsAdmin(caller) && !Present(role) && !Present(name) ==> db.users == old(db.users)
    ensures IsAdmin(caller) ==> |db.users| == |old(db.users)| && forall k :: 0 <= k < |db.users| ==>
      db.users[k] == if old(db.users)[k].id == id then Patched(old(db.users)[k], role, name) else old(db.users)[k]
    ensures db.categories == old(db.categories) && db.resources == old(db.resources)
    ensures db.bookings == old(db.bookings) && db.attendees == old(db.attendees)
  {
    if caller.role != "admin" {
      return Denied;
    }
    var fields := BuildRoleNameFields(role, name);
    if |fields| > 0 {
      UpdateKeepsValid(db, fields, id);
      var rows := UpdateRows(db.users, id, fields);
      assert forall k :: 0 <= k < |rows| ==>
        rows[k] == if db.users[k].id == id then Patched(db.users[k], role, name) else db.users[k];
      db.users := rows;
    } else {
      assert forall k :: 0 <= k < |db.users| ==> Patched(db.users[k], role, name) == db.users[k];
    }
    reply := Message(200, "User updated successfully");
  }

  /** The columns the listing selects. */
  datatype Summary = Summary(id: nat, name: string, email: string, role: string, createdAt: int)

  function SummaryOf(u: User): Summary
  {
    Summary(u.id, u.name, u.email, u.role, u.createdAt)
  }

  /** `ORDER BY name` under the server's default collation, which compares letters
      without regard to case. */
  function SummaryKey(s: Summary): seq<int>
  {
    Codes(Lower(s.name))
  }

  function Summaries(s: seq<User>): (r: seq<Summary>)
    ensures |r| == |s| && forall k :: 0 <= k < |s| ==> r[k] == SummaryOf(s[k])
  {
    seq(|s|, k requires 0 <= k < |s| => SummaryOf(s[k]))
  }

  function Others(s: seq<User>, id: int): seq<User>
  {
    Filter(s, (u: User) => u.id != id)
  }

  /** GET `/`: everyone but the caller, by name, without the hash. */
  function List(s: seq<User>, caller: Caller): (r: Reply<seq<Summary>>)
    ensures r.Json? && r.status == 200
    ensures multiset(r.value) == multiset(Summaries(Others(s, caller.id)))
    ensures forall x :: x in r.value ==> x.id != caller.id
    ensures forall u :: u in s && u.id != caller.id ==> SummaryOf(u) in r.value
    ensures SortedBy(r.value, SummaryKey)
  {
    var others := Others(s, caller.id);
    var sums := Summaries(others);
    var r := SortBy(sums, SummaryKey);
    forall x | x in r ensures x.id != caller.id {
      assert x in multiset(sums);
      var k :| 0 <= k < |sums| && sums[k] == x;
      assert others[k] in others;
    }
    forall u | u in s && u.id != caller.id ensures SummaryOf(u) in r {
      var k :| 0 <= k < |s| && s[k] == u;
      assert u in others;
      var j :| 0 <= j < |others| && others[j] == u;
      assert sums[j] == SummaryOf(u);
      assert SummaryOf(u) in multiset(r);
    }
    Json(200, r)
  }

  /** The users left by `DELETE FROM users WHERE id = ?`. */
  function RemoveUser(s: seq<User>, id: int): (r: seq<User>)
    ensures forall u :: u in r <==> u in s && u.id != id
  {
    var r := Filter(s, (u: User) => u.id != id);
    assert forall u :: u in r <==> u in s && u.id != id by {
      forall u ensures u in r <==> u in s && u.id != id {
        if u in r { var k :| 0 <= k < |r| && r[k] == u; }
        if u in s { var k :| 0 <= k < |s| && s[k] == u; }
      }
    }
    r
  }

  /** The attendee rows left by the `ON DELETE CASCADE` of that delete. */
  function RemoveAttendeesOf(s: seq<Attendee>, userId: int): (r: seq<Attendee>)
    ensures forall a :: a in r <==> a in s && a.userId != userId
  {
    var r := Filter(s, (a: Attendee) => a.userId != userId);
    assert forall a :: a in r <==> a in s && a.userId != userId by {
      forall a ensures a in r <==> a in s && a.userId != userId {
        if a in r { var k :| 0 <= k < |r| && r[k] == a; }
        if a in s { var k :| 0 <= k < |s| && s[k] == a; }
      }
    }
    r
  }

  /** A booking still belongs to the user: `bookings.user_id` has no cascade. */
  predicate OwnsBookings(bookings: seq<Booking>, id: int)
  {
    exists b :: b in bookings && b.userId == id
  }

  /** DELETE `/:id`: an administrator cannot delete themself; deleting someone who still
      owns bookings is refused by the foreign key (500); otherwise the row and that
      user's attendee rows go, and success is reported even when the id is absent. */
  method Delete(db: Db, caller: Caller, id: int) returns (reply: Reply<()>)
    requires db.Valid()
    modifies db
    ensures db.Valid()
    ensures !IsAdmin(caller) ==> reply == Denied && db.users == old(db.users)
    ensures IsAdmin(caller) && id == caller.id ==>
      reply == Message(400, "Cannot delete yourself") && db.users == old(db.users)
      && db.attendees == old(db.attendees)
    ensures IsAdmin(caller) && id != caller.id && OwnsBookings(old(db.bookings), id) ==>
      reply == ServerError && db.users == old(db.users) && db.attendees == old(db.attendees)
    ensures IsAdmin(caller) && id != caller.id && !OwnsBookings(old(db.bookings), id) ==>
      && reply == Message(200, "User deleted successfully")
      && db.users == RemoveUser(old(db.users), id)
      && db.attendees == RemoveAttendeesOf(old(db.attendees), id)
    ensures db.categories == old(db.categories) && db.resources == old(db.resources)
    ensures db.bookings == old(db.bookings)
  {
    if caller.role != "admin" {
      return Denied;
    }
    if id == caller.id {
      return Message(400, "Cannot delete yourself");
    }
    if OwnsBookings(db.bookings, id) {
      return ServerError;
    }
    var users := RemoveUser(db.users, id);
    var atts := RemoveAttendeesOf(db.attendees, id);
    FilterKeepsDistinct(db.users, (u: User) => u.id != id, (u: User) => u.id);
    FilterKeepsDistinct(db.users, (u: User) => u.id != id, (u: User) => u.email);
    FilterKeepsDistinct(db.attendees, (a: Attendee) => a.userId != id, (a: Attendee) => (a.bookingId, a.userId));
    forall b | b in db.bookings ensures HasUser(users, b.userId) {
      var u :| u in db.users && u.id == b.userId;
      assert u in users;
    }
    forall a | a in atts ensures HasBooking(db.bookings, a.bookingId) && HasUser(users, a.userId) {
      var u :| u in db.users && u.id == a.userId;
      assert u in users;
    }
    db.users := users;
    db.attendees := atts;
    reply := Message(200, "User deleted successfully");
  }
}
