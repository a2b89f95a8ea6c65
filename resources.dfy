/** The resource catalog: insertion, listing of active resources, lookup, full update and
    soft delete over the `resources` table. */
module ResourceModel {
  import opened Common
  import opened Schema

  /** The body fields `Resource.create` and `Resource.update` bind. */
  datatype ResourceInput = ResourceInput(
    name: Field<string>, description: Field<string>, kind: Field<string>,
    capacity: Field<int>, location: Field<string>, imageUrl: Field<string>,
    isActive: Field<bool>)

  /** `is_active = TRUE`: a NULL flag is not active. */
  predicate Active(r: Resource)
  {
    r.isActive == Some(true)
  }

  /** The six columns `create` binds are accepted: none is `undefined`, and the NOT NULL
      columns `name` and `type` are not NULL. */
  predicate CreateAccepted(i: ResourceInput)
  {
    && Bindable(i.name) && Bindable(i.description) && Bindable(i.kind)
    && Bindable(i.capacity) && Bindable(i.location) && Bindable(i.imageUrl)
    && i.name.Given? && i.kind.Given?
  }

  /** None of the seven fields `update` binds (`is_active` as well) is `undefined`: the
      driver sends the statement. */
  predicate UpdateBindable(i: ResourceInput)
  {
    && Bindable(i.name) && Bindable(i.description) && Bindable(i.kind)
    && Bindable(i.capacity) && Bindable(i.location) && Bindable(i.imageUrl)
    && Bindable(i.isActive)
  }

  /** The statement is sent and a matched row takes the values: `name` and `type` are not
      NULL. */
  predicate UpdateAccepted(i: ResourceInput)
  {
    UpdateBindable(i) && i.name.Given? && i.kind.Given?
  }

  function FindById(s: seq<Resource>, id: int): (r: Option<Resource>)
    ensures r.Some? <==> HasResource(s, id)
    ensures r.Some? ==> r.value in s && r.value.id == id
  {
    if s == [] then None
    else if s[0].id == id then Some(s[0])
    else
      var r := FindById(s[1..], id);
      assert HasResource(s, id) ==> HasResource(s[1..], id) by {
        if HasResource(s, id) {
          var x :| x in s && x.id == id;
          assert x != s[0];
          assert x in s[1..];
        }
      }
      r
  }

  /** With a primary key, `findById` returns the one row with that id. */
  lemma {:induction false} FindByIdUnique(s: seq<Resource>, k: nat)
    requires forall i, j :: 0 <= i < j < |s| ==> s[i].id != s[j].id
    requires k < |s|
    ensures FindById(s, s[k].id) == Some(s[k])
  {
    if k > 0 {
      assert s[0].id != s[k].id;
      FindByIdUnique(s[1..], k - 1);
    }
  }

  /** `findAll`: exactly the active rows, in table order. */
  function FindAll(s: seq<Resource>): (r: seq<Resource>)
    ensures forall x :: x in r <==> x in s && Active(x)
    ensures |r| <= |s|
  {
    var r := Filter(s, Active);
    assert forall x :: x in r ==> x in s && Active(x) by {
      forall x | x in r ensures x in s && Active(x) {
        var k :| 0 <= k < |r| && r[k] == x;
      }
    }
    assert forall x :: x in s && Active(x) ==> x in r by {
      forall x | x in s && Active(x) ensures x in r {
        var k :| 0 <= k < |s| && s[k] == x;
      }
    }
    r
  }

  /** The row `UPDATE resources SET name=?, …, is_active=? WHERE id=?` leaves: all seven
      columns rewritten, the id and category kept. */
  function Updated(r: Resource, i: ResourceInput): (u: Resource)
    requires UpdateAccepted(i)
    ensures u.id == r.id && u.categoryId == r.categoryId
    ensures u.name == i.name.value && u.kind == i.kind.value
    ensures u.description == Stored(i.description) && u.capacity == Stored(i.capacity)
    ensures u.location == Stored(i.location) && u.imageUrl == Stored(i.imageUrl)
    ensures u.isActive == Stored(i.isActive)
  {
    r.(name := i.name.value, description := Stored(i.description), kind := i.kind.value,
       capacity := Stored(i.capacity), location := Stored(i.location),
       imageUrl := Stored(i.imageUrl), isActive := Stored(i.isActive))
  }

  function UpdateRows(s: seq<Resource>, id: int, i: ResourceInput): (r: seq<Resource>)
    requires UpdateAccepted(i)
    ensures |r| == |s|
    ensures forall k :: 0 <= k < |s| ==> r[k] == if s[k].id == id then Updated(s[k], i) else s[k]
  {
    seq(|s|, k requires 0 <= k < |s| => if s[k].id == id then Updated(s[k], i) else s[k])
  }

  /** The table after `UPDATE resources SET is_active = FALSE WHERE id = ?`. */
  function Deactivate(s: seq<Resource>, id: int): (r: seq<Resource>)
    ensures |r| == |s|
    ensures forall k :: 0 <= k < |s| ==> r[k] == if s[k].id == id then s[k].(isActive := Some(false)) else s[k]
  {
    seq(|s|, k requires 0 <= k < |s| => if s[k].id == id then s[k].(isActive := Some(false)) else s[k])
  }

  /** Soft delete never removes a row and changes nothing but the flag. */
  lemma DeactivateKeepsRows(s: seq<Resource>, id: int)
    ensures forall x :: x in s ==> x.(isActive := if x.id == id then Some(false) else x.isActive) in Deactivate(s, id)
    ensures forall k :: 0 <= k < |s| ==> Deactivate(s, id)[k].(isActive := s[k].isActive) == s[k]
  {
    forall x | x in s
      ensures x.(isActive := if x.id == id then Some(false) else x.isActive) in Deactivate(s, id)
    {
      var k :| 0 <= k < |s| && s[k] == x;
      assert Deactivate(s, id)[k] == x.(isActive := if x.id == id then Some(false) else x.isActive);
    }
  }

  /** Soft delete is idempotent. */
  lemma DeactivateIdempotent(s: seq<Resource>, id: int)
    ensures Deactivate(Deactivate(s, id), id) == Deactivate(s, id)
  {
  }

  /** After a soft delete the row is gone from the listing, but `findById` still
      returns it. */
  lemma {:induction false} DeletedHiddenButFound(s: seq<Resource>, id: int)
    requires HasResource(s, id)
    ensures forall x :: x in FindAll(Deactivate(s, id)) ==> x.id != id
    ensures FindById(Deactivate(s, id), id).Some?
    ensures !Active(FindById(Deactivate(s, id), id).value)
  {
    var t := Deactivate(s, id);
    var x :| x in s && x.id == id;
    var k :| 0 <= k < |s| && s[k] == x;
    assert t[k].id == id;
    forall y | y in t && y.id == id ensures !Active(y) {
      var j :| 0 <= j < |t| && t[j] == y;
    }
  }

  /** Rewriting rows without touching ids or categories keeps the table constraints. */
  lemma SameKeysKeepValid(db: Db, s: seq<Resource>)
    requires db.Valid()
    requires |s| == |db.resources|
    requires forall k :: 0 <= k < |s| ==> s[k].id == db.resources[k].id && s[k].categoryId == db.resources[k].categoryId
    ensures ResourcesOk(s, db.nextResourceId, db.categories)
    ensures BookingsOk(db.bookings, db.nextBookingId, db.users, s)
  {
    forall r | r in s && r.categoryId.Some? ensures HasCategory(db.categories, r.categoryId.value) {
      var k :| 0 <= k < |s| && s[k] == r;
      assert db.resources[k] in db.resources;
    }
    forall b | b in db.bookings ensures HasResource(s, b.resourceId) {
      var r :| r in db.resources && r.id == b.resourceId;
      var k :| 0 <= k < |db.resources| && db.resources[k] == r;
      assert s[k] in s;
    }
  }

  /** `Resource.create`: inserts one active row without category and returns its id;
      the driver refuses the insert when a bound field is `undefined` or a NOT NULL
      column is NULL. */
  method Create(db: Db, input: ResourceInput) returns (id: Option<nat>)
    requires db.Valid()
    modifies db
    ensures db.Valid()
    ensures id.Some? <==> CreateAccepted(input)
    ensures id.Some? ==>
      && id.value == old(db.nextResourceId)
      && !HasResource(old(db.resources), id.value)
      && db.resources == old(db.resources) + [Resource(id.value, input.name.value, Stored(input.description),
           input.kind.value, Stored(input.capacity), Stored(input.location), Stored(input.imageUrl),
           Some(true), None)]
      && db.nextResourceId == old(db.nextResourceId) + 1
    ensures id.None? ==> db.resources == old(db.resources) && db.nextResourceId == old(db.nextResourceId)
    ensures db.users == old(db.users) && db.categories == old(db.categories)
    ensures db.bookings == old(db.bookings) && db.attendees == old(db.attendees)
    ensures db.nextUserId == old(db.nextUserId) && db.nextCategoryId == old(db.nextCategoryId)
    ensures db.nextBookingId == old(db.nextBookingId)
  {
    if !CreateAccepted(input) {
      return None;
    }
    var row := Resource(db.nextResourceId, input.name.value, Stored(input.description), input.kind.value,
      Stored(input.capacity), Stored(input.location), Stored(input.imageUrl), Some(true), None);
    forall r | r in db.resources ensures r.id != row.id {
      var k :| 0 <= k < |db.resources| && db.resources[k] == r;
    }
    db.resources := db.resources + [row];
    db.nextResourceId := db.nextResourceId + 1;
    id := Some(row.id);
  }

  /** `Resource.update`: rewrites the matched row and reports whether one matched.
      `None` when the statement fails: the driver refuses an `undefined` field before
      anything runs, and the NOT NULL check on `name` and `type` fails only on a row the
      WHERE clause matched, so with no such row a NULL name or type still reports no
      match. */
  method Update(db: Db, id: int, input: ResourceInput) returns (matched: Option<bool>)
    requires db.Valid()
    modifies db
    ensures db.Valid()
    ensures matched.None? <==>
      !UpdateBindable(input) || (HasResource(old(db.resources), id) && !UpdateAccepted(input))
    ensures matched.Some? ==> (matched.value <==> HasResource(old(db.resources), id))
    ensures matched != Some(true) ==> db.resources == old(db.resources)
    ensures matched == Some(true) ==>
      UpdateAccepted(input) && db.resources == UpdateRows(old(db.resources), id, input)
    ensures db.users == old(db.users) && db.categories == old(db.categories)
    ensures db.bookings == old(db.bookings) && db.attendees == old(db.attendees)
    ensures db.nextUserId == old(db.nextUserId) && db.nextCategoryId == old(db.nextCategoryId)
    ensures db.nextResourceId == old(db.nextResourceId) && db.nextBookingId == old(db.nextBookingId)
  {
    if !UpdateBindable(input) {
      return None;
    }
    if FindById(db.resources, id).None? {
      return Some(false);
    }
    if !UpdateAccepted(input) {
      return None;
    }
    matched := Some(true);
    var s := UpdateRows(db.resources, id, input);
    SameKeysKeepValid(db, s);
    db.resources := s;
  }

  /** `Resource.delete`: the soft delete; true when a row matched. */
  method Delete(db: Db, id: int) returns (matched: bool)
    requires db.Valid()
    modifies db
    ensures db.Valid()
    ensures matched <==> HasResource(old(db.resources), id)
    ensures db.resources == Deactivate(old(db.resources), id)
    ensures db.users == old(db.users) && db.categories == old(db.categories)
    ensures db.bookings == old(db.bookings) && db.attendees == old(db.attendees)
    ensures db.nextUserId == old(db.nextUserId) && db.nextCategoryId == old(db.nextCategoryId)
    ensures db.nextResourceId == old(db.nextResourceId) && db.nextBookingId == old(db.nextBookingId)
  {
    matched := FindById(db.resources, id).Some?;
    var s := Deactivate(db.resources, id);
    SameKeysKeepValid(db, s);
    db.resources := s;
  }
}

/** The `/api/resources` handlers and their own `adminAuth` guard. */
module ResourceRoutes {
  import opened Common
  import opened Schema
  import opened ResourceModel

  /** `adminAuth`: anyone but an administrator is turned away with 403. */
  function AdminAuth(caller: Caller): (g: Guard)
    ensures g == Next <==> IsAdmin(caller)
    ensures g != Next ==> g == Respond(403, "Access denied. Admin only.")
  {
    if caller.role != "admin" then Respond(403, "Access denied. Admin only.") else Next
  }

  /** GET `/`: the active resources. */
  function GetList(s: seq<Resource>): (r: Reply<seq<Resource>>)
    ensures r.Json? && r.status == 200
    ensures forall x :: x in r.value <==> x in s && Active(x)
  {
    Json(200, FindAll(s))
  }

  /** GET `/:id`: the row, active or not, or 404. */
  function GetOne(s: seq<Resource>, id: int): (r: Reply<Resource>)
    ensures !HasResource(s, id) <==> r == Message(404, "Resource not found")
    ensures HasResource(s, id) ==> r.Json? && r.status == 200 && r.value in s && r.value.id == id
  {
    match FindById(s, id)
    case None => Message(404, "Resource not found")
    case Some(x) => Json(200, x)
  }

  /** POST `/`: an administrator creates a resource; the reply is the new row. */
  method Post(db: Db, caller: Caller, input: ResourceInput) returns (reply: Reply<Resource>)
    requires db.Valid()
    modifies db
    ensures db.Valid()
    ensures !IsAdmin(caller) ==>
      reply == Message(403, "Access denied. Admin only.") && db.resources == old(db.resources)
    ensures IsAdmin(caller) && !CreateAccepted(input) ==>
      reply == ServerError && db.resources == old(db.resources)
    ensures IsAdmin(caller) && CreateAccepted(input) ==>
      && reply == Json(201, Resource(old(db.nextResourceId), input.name.value, Stored(input.description),
           input.kind.value, Stored(input.capacity), Stored(input.location), Stored(input.imageUrl),
           Some(true), None))
      && db.resources == old(db.resources) + [reply.value]
      && Active(reply.value)
    ensures db.users == old(db.users) && db.categories == old(db.categories)
    ensures db.bookings == old(db.bookings) && db.attendees == old(db.attendees)
  {
    var g := AdminAuth(caller);
    if g.Respond? {
      return Message(g.status, g.message);
    }
    var id := Create(db, input);
    if id.None? {
      return ServerError;
    }
    assert db.resources[..|db.resources| - 1] == old(db.resources);
    FindByIdUnique(db.resources, |db.resources| - 1);
    var row := FindById(db.resources, id.value);
    reply := Json(201, row.value);
  }

  /** PUT `/:id`: 404 when no row matched (whatever the body's NULLs), else the stored row
      rewritten with the body's values; 500 when the statement fails. */
  method Put(db: Db, caller: Caller, id: int, input: ResourceInput) returns (reply: Reply<Resource>)
    requires db.Valid()
    modifies db
    ensures db.Valid()
    ensures !IsAdmin(caller) ==>
      reply == Message(403, "Access denied. Admin only.") && db.resources == old(db.resources)
    ensures IsAdmin(caller) && (!UpdateBindable(input) || (HasResource(old(db.resources), id) && !UpdateAccepted(input))) ==>
      reply == ServerError && db.resources == old(db.resources)
    ensures IsAdmin(caller) && UpdateBindable(input) && !HasResource(old(db.resources), id) ==>
      reply == Message(404, "Resource not found") && db.resources == old(db.resources)
    ensures IsAdmin(caller) && UpdateAccepted(input) && HasResource(old(db.resources), id) ==>
      && db.resources == UpdateRows(old(db.resources), id, input)
      && exists x :: x in old(db.resources) && x.id == id && reply == Json(200, Updated(x, input))
    ensures db.users == old(db.users) && db.categories == old(db.categories)
    ensures db.bookings == old(db.bookings) && db.attendees == old(db.attendees)
  {
    var g := AdminAuth(caller);
    if g.Respond? {
      return Message(g.status, g.message);
    }
    var matched := Update(db, id, input);
    if matched.None? {
      return ServerError;
    }
    if !matched.value {
      return Message(404, "Resource not found");
    }
    ghost var x :| x in old(db.resources) && x.id == id;
    ghost var k :| 0 <= k < |old(db.resources)| && old(db.resources)[k] == x;
    assert db.resources[k].id == id;
    var row := FindById(db.resources, id);
    ghost var j :| 0 <= j < |db.resources| && db.resources[j] == row.value;
    assert old(db.resources)[j].id == id;
    assert row.value == Updated(old(db.resources)[j], input);
    assert old(db.resources)[j] in old(db.resources);
    reply := Json(200, row.value);
  }

  /** DELETE `/:id`: the soft delete; 404 when no row matched. */
  method Delete(db: Db, caller: Caller, id: int) returns (reply: Reply<()>)
    requires db.Valid()
    modifies db
    ensures db.Valid()
    ensures !IsAdmin(caller) ==>
      reply == Message(403, "Access denied. Admin only.") && db.resources == old(db.resources)
    ensures IsAdmin(caller) ==>
      && db.resources == Deactivate(old(db.resources), id)
      && (!HasResource(old(db.resources), id) ==> reply == Message(404, "Resource not found"))
      && (HasResource(old(db.resources), id) ==> reply == Message(200, "Resource removed"))
    ensures db.users == old(db.users) && db.categories == old(db.categories)
    ensures db.bookings == old(db.bookings) && db.attendees == old(db.attendees)
  {
    var g := AdminAuth(caller);
    if g.Respond? {
      return Message(g.status, g.message);
    }
    var matched := ResourceModel.Delete(db, id);
    if !matched {
      return Message(404, "Resource not found");
    }
    reply := Message(200, "Resource removed");
  }
}
