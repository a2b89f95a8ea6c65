/** The `/api/categories` handlers over the `resource_categories` table, whose `name`
    column is UNIQUE. Writes sit behind the shared `adminAuth`, modelled as the decision
    "the caller is an administrator" with the rejection reply `Denied`. */
module Categories {
  import opened Common
  import opened Sorting
  import opened Schema

  /** The sort key of `ORDER BY name`: the server's default collation compares letters
      without regard to case, so the key is the lower-cased name's character codes. */
  function NameKey(c: Category): seq<int>
  {
    Codes(Lower(c.name))
  }

  /** GET `/`: every category, ordered by name. */
  function List(s: seq<Category>): (r: Reply<seq<Category>>)
    ensures r.Json? && r.status == 200
    ensures multiset(r.value) == multiset(s)
    ensures SortedBy(r.value, NameKey)
  {
    Json(200, SortBy(s, NameKey))
  }

  /** Case does not decide the order: a category called "apple" is listed before one
      called "Banana", although 'B' has the smaller character code. */
  lemma ListIgnoresCase(s: seq<Category>, i: nat, j: nat)
    requires i < |List(s).value| && j < |List(s).value|
    requires List(s).value[i].name == "apple" && List(s).value[j].name == "Banana"
    ensures i < j
  {
  }

  /** Some stored category other than the one with id `except` is called `name`. */
  predicate NameTaken(s: seq<Category>, name: string, except: int)
  {
    exists c :: c in s && c.name == name && c.id != except
  }

  /** A resource still refers to the category. */
  predicate InUse(resources: seq<Resource>, id: int)
  {
    exists r :: r in resources && r.categoryId == Some(id)
  }

  function RenameRows(s: seq<Category>, id: int, name: string, description: Option<string>): (r: seq<Category>)
    ensures |r| == |s|
    ensures forall k :: 0 <= k < |s| ==>
      r[k] == if s[k].id == id then Category(s[k].id, name, description) else s[k]
  {
    seq(|s|, k requires 0 <= k < |s| => if s[k].id == id then Category(s[k].id, name, description) else s[k])
  }

  /** `DELETE FROM resource_categories WHERE id = ?`: the other rows, in order. */
  function RemoveRows(s: seq<Category>, id: int): (r: seq<Category>)
    ensures forall c :: c in r <==> c in s && c.id != id
  {
    if s == [] then []
    else
      assert forall c :: c in s <==> c == s[0] || c in s[1..] by {
        assert s == [s[0]] + s[1..];
      }
      if s[0].id == id then RemoveRows(s[1..], id) else [s[0]] + RemoveRows(s[1..], id)
  }

  /** Removing rows keeps keys below the counter and ids and names distinct. */
  lemma {:induction false} RemoveKeepsOk(s: seq<Category>, next: nat, id: int)
    requires CategoriesOk(s, next)
    ensures CategoriesOk(RemoveRows(s, id), next)
  {
    if s != [] {
      var t := s[1..];
      TailOk(s, next);
      RemoveKeepsOk(t, next, id);
      if s[0].id != id {
        HeadFresh(s, next);
        ConsOk(s[0], RemoveRows(t, id), next);
      }
    }
  }

  lemma TailOk(s: seq<Category>, next: nat)
    requires s != [] && CategoriesOk(s, next)
    ensures CategoriesOk(s[1..], next)
  {
    var t := s[1..];
    forall i, j | 0 <= i < j < |t| ensures t[i].id != t[j].id && t[i].name != t[j].name {
      assert t[i] == s[i + 1] && t[j] == s[j + 1];
    }
  }

  lemma HeadFresh(s: seq<Category>, next: nat)
    requires s != [] && CategoriesOk(s, next)
    ensures forall c :: c in s[1..] ==> c.id != s[0].id && c.name != s[0].name
    ensures s[0].id < next
  {
    forall c | c in s[1..] ensures c.id != s[0].id && c.name != s[0].name {
      var k :| 0 <= k < |s[1..]| && s[1..][k] == c;
      assert s[k + 1] == c;
    }
  }

  lemma ConsOk(x: Category, rest: seq<Category>, next: nat)
    requires CategoriesOk(rest, next) && x.id < next
    requires forall c :: c in rest ==> c.id != x.id && c.name != x.name
    ensures CategoriesOk([x] + rest, next)
  {
    var r := [x] + rest;
    forall i, j | 0 <= i < j < |r| ensures r[i].id != r[j].id && r[i].name != r[j].name {
      assert r[j] == rest[j - 1];
      if i > 0 {
        assert r[i] == rest[i - 1];
      }
    }
  }

  /** POST `/`: creates a category; a name already stored is the duplicate-key error,
      answered with 400 and no new row. */
  method Create(db: Db, caller: Caller, name: Field<string>, description: Field<string>)
    returns (reply: Reply<()>)
    requires db.Valid()
    modifies db
    ensures db.Valid()
    ensures !IsAdmin(caller) ==> reply == Denied && db.categories == old(db.categories)
    ensures IsAdmin(caller) && !(name.Given? && Bindable(description)) ==>
      reply == ServerError && db.categories == old(db.categories)
    ensures (IsAdmin(caller) && name.Given? && Bindable(description)
             && NameTaken(old(db.categories), name.value, -1)) ==>
      reply == Message(400, "Category already exists") && db.categories == old(db.categories)
    ensures (IsAdmin(caller) && name.Given? && Bindable(description)
             && !NameTaken(old(db.categories), name.value, -1)) ==>
      && reply == Message(201, "Category created")
      && db.categories == old(db.categories) + [Category(old(db.nextCategoryId), name.value, Stored(description))]
    ensures db.users == old(db.users) && db.resources == old(db.resources)
    ensures db.bookings == old(db.bookings) && db.attendees == old(db.attendees)
  {
    if caller.role != "admin" {
      return Denied;
    }
    if !(name.Given? && Bindable(description)) {
      return ServerError;
    }
    if NameTaken(db.categories, name.value, -1) {
      return Message(400, "Category already exists");
    }
    var row := Category(db.nextCategoryId, name.value, Stored(description));
    assert forall c :: c in db.categories ==> c.id != row.id && c.name != row.name by {
      forall c | c in db.categories ensures c.id != row.id && c.name != row.name {
        var k :| 0 <= k < |db.categories| && db.categories[k] == c;
      }
    }
    db.categories := db.categories + [row];
    db.nextCategoryId := db.nextCategoryId + 1;
    assert ResourcesOk(db.resources, db.nextResourceId, db.categories) by {
      forall r | r in db.resources && r.categoryId.Some? ensures HasCategory(db.categories, r.categoryId.value) {
        var c :| c in old(db.categories) && c.id == r.categoryId.value;
        assert c in db.categories;
      }
    }
    reply := Message(201, "Category created");
  }

  /** PUT `/:id`: overwrites name and description and reports success even when no row
      has that id. Renaming to another category's name is a duplicate-key error, which
      this handler does not map: 500. */
  method Update(db: Db, caller: Caller, id: int, name: Field<string>, description: Field<string>)
    returns (reply: Reply<()>)
    requires db.Valid()
    modifies db
    ensures db.Valid()
    ensures !IsAdmin(caller) ==> reply == Denied && db.categories == old(db.categories)
    ensures IsAdmin(caller) && !(Bindable(name) && Bindable(description)) ==>
      reply == ServerError && db.categories == old(db.categories)
    ensures (IsAdmin(caller) && Bindable(name) && Bindable(description) && !HasCategory(old(db.categories), id)) ==>
      reply == Message(200, "Category updated") && db.categories == old(db.categories)
    ensures (IsAdmin(caller) && Bindable(name) && Bindable(description) && HasCategory(old(db.categories), id)
             && (name.NullValue? || NameTaken(old(db.categories), name.value, id))) ==>
      reply == ServerError && db.categories == old(db.categories)
    ensures (IsAdmin(caller) && name.Given? && Bindable(description) && HasCategory(old(db.categories), id)
             && !NameTaken(old(db.categories), name.value, id)) ==>
      && reply == Message(200, "Category updated")
      && db.categories == RenameRows(old(db.categories), id, name.value, Stored(description))
    ensures db.users == old(db.users) && db.resources == old(db.resources)
    ensures db.bookings == old(db.bookings) && db.attendees == old(db.attendees)
  {
    if caller.role != "admin" {
      return Denied;
    }
    if !(Bindable(name) && Bindable(description)) {
      return ServerError;
    }
    if !HasCategory(db.categories, id) {
      return Message(200, "Category updated");
    }
    if name.NullValue? || NameTaken(db.categories, name.value, id) {
      return ServerError;
    }
    var s := RenameRows(db.categories, id, name.value, Stored(description));
    assert CategoriesOk(s, db.nextCategoryId) by {
      forall i, j | 0 <= i < j < |s| ensures s[i].id != s[j].id && s[i].name != s[j].name {
        var a, b := db.categories[i], db.categories[j];
        if a.id == id {
          assert !(b.name == name.value && b.id != id);
        } else if b.id == id {
          assert !(a.name == name.value && a.id != id);
        }
      }
    }
    assert ResourcesOk(db.resources, db.nextResourceId, s) by {
      forall r | r in db.resources && r.categoryId.Some? ensures HasCategory(s, r.categoryId.value) {
        var c :| c in db.categories && c.id == r.categoryId.value;
        var k :| 0 <= k < |db.categories| && db.categories[k] == c;
        assert s[k].id == c.id;
      }
    }
    db.categories := s;
    reply := Message(200, "Category updated");
  }

  /** DELETE `/:id`: removes the row when there is one and reports success either way;
      while a resource still refers to the category the foreign key refuses it: 500. */
  method Delete(db: Db, caller: Caller, id: int) returns (reply: Reply<()>)
    requires db.Valid()
    modifies db
    ensures db.Valid()
    ensures !IsAdmin(caller) ==> reply == Denied && db.categories == old(db.categories)
    ensures IsAdmin(caller) && InUse(old(db.resources), id) ==>
      reply == ServerError && db.categories == old(db.categories)
    ensures IsAdmin(caller) && !InUse(old(db.resources), id) ==>
      reply == Message(200, "Category deleted") && db.categories == RemoveRows(old(db.categories), id)
    ensures db.users == old(db.users) && db.resources == old(db.resources)
    ensures db.bookings == old(db.bookings) && db.attendees == old(db.attendees)
  {
    if caller.role != "admin" {
      return Denied;
    }
    if InUse(db.resources, id) {
      return ServerError;
    }
    var s := RemoveRows(db.categories, id);
    RemoveKeepsOk(db.categories, db.nextCategoryId, id);
    assert ResourcesOk(db.resources, db.nextResourceId, s) by {
      forall r | r in db.resources && r.categoryId.Some? ensures HasCategory(s, r.categoryId.value) {
        var c :| c in db.categories && c.id == r.categoryId.value;
        assert c.id != id;
        assert c in s;
      }
    }
    db.categories := s;
    reply := Message(200, "Category deleted");
  }

  /** Deleting an id that no row has leaves the table as it was. */
  lemma {:induction false} RemoveAbsentIsIdentity(s: seq<Category>, id: int)
    requires !HasCategory(s, id)
    ensures RemoveRows(s, id) == s
  {
    if s != [] {
      assert s[0] in s;
      assert !HasCategory(s[1..], id) by {
        forall c | c in s[1..] ensures c.id != id {
          assert c in s;
        }
      }
      RemoveAbsentIsIdentity(s[1..], id);
      assert s == [s[0]] + s[1..];
    }
  }
}
