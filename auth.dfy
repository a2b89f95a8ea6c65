/** The `/api/auth` handlers: registration, login, the caller's own profile, and the two
    self-service updates. Password hashing and comparison (bcrypt) are parameters: `hash`
    is the hash the handler would compute, `matches(password, hash)` the comparison.
    Tokens are modelled by the claims they would sign. */
module AuthRoutes {
  import opened Common
  import opened Schema
  import opened UserModel
  import Multer = Upload

  /** The `user` object of the signed payload. */
  datatype Claims = Claims(id: nat, role: string)

  /** The user the login response exposes alongside the token: no password hash. */
  datatype PublicUser = PublicUser(id: nat, name: string, email: string, role: string)

  datatype LoginBody = LoginBody(token: Claims, user: PublicUser)

  /** The update-details response: the message and, when a file came, its location. */
  datatype DetailsBody = DetailsBody(message: string, profilePicture: Option<string>)

  /** POST `/register`, after the register validator: an email already stored is refused;
      a password that is not a string (the validator lets a number through) makes the
      hash reject (500, nothing stored); otherwise a user is created with `hash` (the hash
      of the password), the role from the body (`role || 'user'`), and the token carries
      that id and role. */
  method Register(
    db: Db, name: string, email: string, password: JsValue, role: Option<string>, hash: string, now: int)
    returns (reply: Reply<Claims>)
    requires db.Valid()
    modifies db
    ensures db.Valid()
    ensures EmailTaken(old(db.users), email) ==>
      reply == Message(400, "User already exists") && db.users == old(db.users)
    ensures !EmailTaken(old(db.users), email) && !password.Str? ==>
      reply == ServerError && db.users == old(db.users)
    ensures !EmailTaken(old(db.users), email) && password.Str? ==>
      && reply == Json(201, Claims(old(db.nextUserId), RoleOrDefault(role)))
      && db.users == old(db.users) + [User(old(db.nextUserId), name, email, hash, RoleOrDefault(role), None, now)]
    ensures db.categories == old(db.categories) && db.resources == old(db.resources)
    ensures db.bookings == old(db.bookings) && db.attendees == old(db.attendees)
  {
    var user := FindByEmail(db.users, email);
    if user.Some? {
      return Message(400, "User already exists");
    }
    if !password.Str? {
      return ServerError;
    }
    var id := Create(db, name, email, hash, role, now);
    reply := Json(201, Claims(id.value, RoleOrDefault(role)));
  }

  function LoginBodyOf(u: User): LoginBody
  {
    LoginBody(Claims(u.id, u.role), PublicUser(u.id, u.name, u.email, u.role))
  }

  /** POST `/login`, after the login validator. An unknown email and a wrong password get
      the same reply; for a stored email, a password that is not a string makes the
      comparison reject (500); a match returns the stored id, name, email and role. */
  function Login(users: seq<User>, email: string, password: JsValue, matches: (string, string) -> bool)
    : (r: Reply<LoginBody>)
    requires DistinctBy(users, (u: User) => u.email)
    ensures r.Json? <==>
      password.Str? && exists u :: u in users && u.email == email && matches(password.s, u.passwordHash)
    ensures r.ServerError? <==> EmailTaken(users, email) && !password.Str?
    ensures !r.Json? && !r.ServerError? ==> r == Message(400, "Invalid Credentials")
    ensures r.Json? ==>
      r.status == 200 && exists u :: u in users && u.email == email && r.value == LoginBodyOf(u)
  {
    match FindByEmail(users, email)
    case None => Message(400, "Invalid Credentials")
    case Some(u) =>
      assert forall v :: v in users && v.email == email ==> v == u by {
        forall v | v in users && v.email == email ensures v == u {
          var i :| 0 <= i < |users| && users[i] == v;
          var j :| 0 <= j < |users| && users[j] == u;
        }
      }
      if !password.Str? then ServerError
      else if matches(password.s, u.passwordHash) then Json(200, LoginBodyOf(u))
      else Message(400, "Invalid Credentials")
  }

  /** A valid table meets `Login`'s requirement. */
  lemma EmailsDistinct(users: seq<User>, next: nat)
    requires UsersOk(users, next)
    ensures DistinctBy(users, (u: User) => u.email)
  {
  }

  /** Logging in right after registering, with the password the stored hash matches,
      returns the new id and the role the token was given. */
  lemma {:induction false} LoginAfterRegister(
    users: seq<User>, next: nat, name: string, email: string, password: string,
    role: Option<string>, hash: string, now: int, matches: (string, string) -> bool)
    requires UsersOk(users, next) && !EmailTaken(users, email) && matches(password, hash)
    ensures UsersOk(users + [User(next, name, email, hash, RoleOrDefault(role), None, now)], next + 1)
    ensures Login(users + [User(next, name, email, hash, RoleOrDefault(role), None, now)], email, Str(password), matches)
      == Json(200, LoginBody(Claims(next, RoleOrDefault(role)), PublicUser(next, name, email, RoleOrDefault(role))))
  {
    var row := User(next, name, email, hash, RoleOrDefault(role), None, now);
    var s := users + [row];
    forall i, j | 0 <= i < j < |s| ensures s[i].id != s[j].id && s[i].email != s[j].email {
      if j == |users| {
        assert s[i] in users;
      }
    }
    EmailsDistinct(s, next + 1);
    assert row in s;
  }

  /** GET `/me`: the caller's profile; an id with no row gives an empty 200 body. */
  function Me(users: seq<User>, caller: Caller): (r: Reply<Option<Profile>>)
    ensures r.Json? && r.status == 200
    ensures r.value.Some? <==> HasUser(users, caller.id)
    ensures r.value.Some? ==> exists u :: u in users && u.id == caller.id && r.value.value == ProfileOf(u)
  {
    Json(200, FindById(users, caller.id))
  }

  /** The row after update-details: the truthy name, and the uploaded file's location. */
  function WithDetails(u: User, name: Option<string>, file: Option<string>): User
  {
    u.(name := if Present(name) then name.value else u.name,
       profilePicture := if file.Some? then file else u.profilePicture)
  }

  /** PUT `/update-details`: the `fields` list, name first, then the picture. */
  method BuildDetailFields(name: Option<string>, file: Option<string>) returns (fields: seq<Assignment>)
    ensures (|fields| == 0) <==> !Present(name) && file.None?
    ensures forall u :: ApplyAll(u, fields) == WithDetails(u, name, file)
  {
    fields := [];
    if Present(name) {
      fields := fields + [SetName(name.value)];
    }
    if file.Some? {
      fields := fields + [SetProfilePicture(file.value)];
    }
    forall u ensures ApplyAll(u, fields) == WithDetails(u, name, file) {
      DetailFieldsEffect(u, name, file, fields);
    }
  }

  lemma DetailFieldsEffect(u: User, name: Option<string>, file: Option<string>, fields: seq<Assignment>)
    requires fields == (if Present(name) then [SetName(name.value)] else [])
                     + (if file.Some? then [SetProfilePicture(file.value)] else [])
    ensures ApplyAll(u, fields) == WithDetails(u, name, file)
  {
    if Present(name) && file.Some? {
      assert fields[1..] == [SetProfilePicture(file.value)];
      assert ApplyAll(u, fields) == ApplyAll(u.(name := name.value), [SetProfilePicture(file.value)]);
      assert [SetProfilePicture(file.value)][1..] == [];
    } else if Present(name) {
      assert fields == [SetName(name.value)];
      assert fields[1..] == [];
    } else if file.Some? {
      assert fields == [SetProfilePicture(file.value)];
      assert fields[1..] == [];
    }
  }

  lemma RowsWithDetails(s: seq<User>, id: int, fields: seq<Assignment>, name: Option<string>, file: Option<string>)
    requires forall u :: ApplyAll(u, fields) == WithDetails(u, name, file)
    ensures forall k :: 0 <= k < |s| ==>
      UpdateRows(s, id, fields)[k] == if s[k].id == id then WithDetails(s[k], name, file) else s[k]
  {
  }

  lemma NoDetailsKeepsRows(s: seq<User>, name: Option<string>, file: Option<string>)
    requires !Present(name) && file.None?
    ensures forall k :: 0 <= k < |s| ==> WithDetails(s[k], name, file) == s[k]
  {
  }

  /** The uploaded file's `location`, when a file came. */
  function LocationOf(file: Option<Multer.IncomingFile>): (r: Option<string>)
    ensures file.None? ==> r.None?
    ensures file.Some? ==> r == file.value.location
  {
    if file.Some? then file.value.location else None
  }

  /** PUT `/update-details`: a file over the size limit never reaches the handler; 404
      when the caller has no row; a file without a `location` (disk storage) binds
      `undefined` and the update is refused (500); otherwise the truthy name and the
      file's location are stored, with no statement when there is neither. */
  method UpdateDetails(db: Db, caller: Caller, name: Option<string>, file: Option<Multer.IncomingFile>)
    returns (reply: Reply<DetailsBody>)
    requires db.Valid()
    modifies db
    ensures db.Valid()
    ensures Multer.TooLarge(file) ==> reply == Multer.ErrorHandlerReply() && db.users == old(db.users)
    ensures !Multer.TooLarge(file) && !HasUser(old(db.users), caller.id) ==>
      reply == Message(404, "User not found") && db.users == old(db.users)
    ensures !Multer.TooLarge(file) && HasUser(old(db.users), caller.id) && file.Some? && file.value.location.None? ==>
      reply == ServerError && db.users == old(db.users)
    ensures !Multer.TooLarge(file) && HasUser(old(db.users), caller.id) && (file.None? || file.value.location.Some?) ==>
      && reply == Json(200, DetailsBody("Profile updated successfully", LocationOf(file)))
      && |db.users| == |old(db.users)|
      && forall k :: 0 <= k < |db.users| ==>
           db.users[k] == if old(db.users)[k].id == caller.id then WithDetails(old(db.users)[k], name, LocationOf(file)) else old(db.users)[k]
    ensures db.categories == old(db.categories) && db.resources == old(db.resources)
    ensures db.bookings == old(db.bookings) && db.attendees == old(db.attendees)
  {
    if Multer.TooLarge(file) {
      return Multer.ErrorHandlerReply();
    }
    var user := FindById(db.users, caller.id);
    if user.None? {
      return Message(404, "User not found");
    }
    if file.Some? && file.value.location.None? {
      return ServerError;
    }
    var location := LocationOf(file);
    var fields := BuildDetailFields(name, location);
    if |fields| > 0 {
      UpdateKeepsValid(db, fields, caller.id);
      var rows := UpdateRows(db.users, caller.id, fields);
      RowsWithDetails(db.users, caller.id, fields, name, location);
      db.users := rows;
    } else {
      NoDetailsKeepsRows(db.users, name, location);
    }
    reply := Json(200, DetailsBody("Profile updated successfully", location));
  }

  /** PUT `/update-password`. With no row for the caller, or a current password that is
      not a string, the comparison throws (500); a current password that does not match
      the stored hash is refused; a new password that is not a string makes hashing
      reject (500); otherwise the stored hash becomes `newHash`. */
  method UpdatePassword(
    db: Db, caller: Caller, current: JsValue, newPassword: JsValue,
    matches: (string, string) -> bool, newHash: string)
    returns (reply: Reply<()>)
    requires db.Valid()
    modifies db
    ensures db.Valid()
    ensures (!HasUser(old(db.users), caller.id) || !current.Str?) ==>
      reply == ServerError && db.users == old(db.users)
    ensures (HasUser(old(db.users), caller.id) && current.Str?) ==>
      exists u :: u in old(db.users) && u.id == caller.id &&
        if !matches(current.s, u.passwordHash) then
          reply == Message(400, "Current password is incorrect") && db.users == old(db.users)
        else if !newPassword.Str? then
          reply == ServerError && db.users == old(db.users)
        else
          reply == Message(200, "Password updated successfully")
          && db.users == UpdateRows(old(db.users), caller.id, [SetPasswordHash(newHash)])
    ensures db.categories == old(db.categories) && db.resources == old(db.resources)
    ensures db.bookings == old(db.bookings) && db.attendees == old(db.attendees)
  {
    var full := FindRow(db.users, caller.id);
    if full.None? || !current.Str? {
      return ServerError;
    }
    if !matches(current.s, full.value.passwordHash) {
      return Message(400, "Current password is incorrect");
    }
    if !newPassword.Str? {
      return ServerError;
    }
    UpdateKeepsValid(db, [SetPasswordHash(newHash)], caller.id);
    db.users := UpdateRows(db.users, caller.id, [SetPasswordHash(newHash)]);
    reply := Message(200, "Password updated successfully");
  }

  /** After a password change, the new password logs in (when the new hash matches it)
      and nothing else about the user changes. */
  lemma LoginAfterPasswordChange(
    users: seq<User>, next: nat, k: nat, newPassword: string, newHash: string,
    matches: (string, string) -> bool)
    requires UsersOk(users, next) && k < |users| && matches(newPassword, newHash)
    ensures UsersOk(UpdateRows(users, users[k].id, [SetPasswordHash(newHash)]), next)
    ensures Login(UpdateRows(users, users[k].id, [SetPasswordHash(newHash)]), users[k].email, Str(newPassword), matches)
      == Json(200, LoginBodyOf(users[k]))
  {
    var s := UpdateRows(users, users[k].id, [SetPasswordHash(newHash)]);
    assert [SetPasswordHash(newHash)][1..] == [];
    assert ApplyAll(users[k], [SetPasswordHash(newHash)]) == ApplyAll(users[k].(passwordHash := newHash), []);
    assert s[k] == users[k].(passwordHash := newHash);
    EmailsDistinct(s, next);
    assert s[k] in s;
  }
}
