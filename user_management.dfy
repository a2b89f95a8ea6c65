/** The administrator's user page: the search filter kept in step with the fetched list
    and the search term, the role toggle, and the add and delete actions. The HTTP calls
    are outside the model: their outcome is a parameter. */
module UserManagement {
  import opened Common

  /** A user as the list endpoint returns it. */
  datatype UserRow = UserRow(id: nat, name: string, email: string, role: string)

  /** The row predicate of the filtering effect. */
  predicate Shown(term: string, u: UserRow)
  {
    Matches(u.name, term) || Matches(u.email, term)
  }

  /** The list the filtering effect computes. */
  function FilteredUsers(users: seq<UserRow>, term: string): (r: seq<UserRow>)
    ensures |r| <= |users|
  {
    Filter(users, (u: UserRow) => Shown(term, u))
  }

  /** A user is listed exactly when the lower-cased name or email contains the
      lower-cased term. */
  lemma FilteredUsersMembers(users: seq<UserRow>, term: string, u: UserRow)
    ensures u in FilteredUsers(users, term) <==>
      u in users && (Matches(u.name, term) || Matches(u.email, term))
  {
    var r := FilteredUsers(users, term);
    if u in users && Shown(term, u) {
      var k :| 0 <= k < |users| && users[k] == u;
    }
    if u in r {
      var k :| 0 <= k < |r| && r[k] == u;
    }
  }

  /** An empty term lists everybody. */
  lemma {:induction false} EmptyTermListsAll(users: seq<UserRow>)
    ensures FilteredUsers(users, "") == users
  {
    forall i | 0 <= i < |users| ensures Shown("", users[i]) {
      EmptyTermMatches(users[i].name);
    }
    FilterAll(users, (u: UserRow) => Shown("", u));
  }

  /** `toggleRole`'s new role: an administrator is demoted, anybody else promoted. */
  function ToggledRole(role: string): (r: string)
    ensures r == "user" <==> role == "admin"
    ensures r == "admin" <==> role != "admin"
  {
    if role == "admin" then "user" else "admin"
  }

  /** Toggling twice restores `admin` and `user`; any other role comes back as `user`. */
  lemma ToggleTwice(role: string)
    ensures role == "admin" || role == "user" ==> ToggledRole(ToggledRole(role)) == role
    ensures role != "admin" && role != "user" ==> ToggledRole(ToggledRole(role)) == "user"
  {
  }

  /** The request `toggleRole` sends: `PUT /users/<id>` with the new role only. */
  function ToggleRequest(u: UserRow): (r: (string, string))
    ensures r.0 == "/users/" + NatToString(u.id)
    ensures r.1 != u.role
  {
    ("/users/" + NatToString(u.id), ToggledRole(u.role))
  }

  datatype NewUser = NewUser(name: string, email: string, password: string, role: string)

  function EmptyNewUser(): NewUser
  {
    NewUser("", "", "", "user")
  }

  /** `handleAddUser`'s check. */
  predicate Complete(n: NewUser)
  {
    n.name != "" && n.email != "" && n.password != ""
  }

  /** `handleDeleteUser`: nothing without a selected id. */
  function DeletePath(id: Option<nat>): (r: Option<string>)
    ensures r.None? <==> id.None? || id.value == 0
    ensures r.Some? ==> r.value == "/users/" + NatToString(id.value)
  {
    if id.Some? && id.value != 0 then Some("/users/" + NatToString(id.value)) else None
  }

  class UserPage {
    var users: seq<UserRow>
    var searchTerm: string
    var filtered: seq<UserRow>
    var isAddModalOpen: bool
    var newUser: NewUser
    var deleteOpen: bool
    var deleteId: Option<nat>

    /** The effect on `[searchTerm, users]` has run. */
    ghost predicate Valid()
      reads this
    {
      filtered == FilteredUsers(users, searchTerm)
    }

    constructor ()
      ensures Valid() && users == [] && searchTerm == "" && filtered == []
      ensures !isAddModalOpen && newUser == EmptyNewUser() && !deleteOpen && deleteId.None?
    {
      users, searchTerm, filtered := [], "", [];
      isAddModalOpen, newUser := false, EmptyNewUser();
      deleteOpen, deleteId := false, None;
    }

    /** `fetchUsers`: the list on success, unchanged on failure; the effect refilters. */
    method Fetch(result: Option<seq<UserRow>>)
      requires Valid()
      modifies this
      ensures Valid()
      ensures result.Some? ==> users == result.value
      ensures result.None? ==> users == old(users)
      ensures searchTerm == old(searchTerm) && isAddModalOpen == old(isAddModalOpen)
      ensures newUser == old(newUser) && deleteOpen == old(deleteOpen) && deleteId == old(deleteId)
    {
      if result.Some? {
        users := result.value;
        filtered := FilteredUsers(users, searchTerm);
      }
    }

    method Search(term: string)
      requires Valid()
      modifies this
      ensures Valid() && searchTerm == term && users == old(users)
      ensures isAddModalOpen == old(isAddModalOpen) && newUser == old(newUser)
      ensures deleteOpen == old(deleteOpen) && deleteId == old(deleteId)
    {
      searchTerm := term;
      filtered := FilteredUsers(users, searchTerm);
    }

    /** The trash button of a row. */
    method AskDelete(id: nat)
      requires Valid()
      modifies this
      ensures Valid() && deleteOpen && deleteId == Some(id)
      ensures users == old(users) && searchTerm == old(searchTerm)
      ensures isAddModalOpen == old(isAddModalOpen) && newUser == old(newUser)
    {
      deleteOpen, deleteId := true, Some(id);
    }

    /** Confirming the delete modal, given whether the request succeeded: no request
        without an id; the modal closes only after a success. */
    method ConfirmDelete(succeeded: bool) returns (sent: Option<string>)
      requires Valid()
      modifies this
      ensures Valid()
      ensures sent == DeletePath(old(deleteId))
      ensures sent.Some? && succeeded ==> !deleteOpen && deleteId.None?
      ensures !(sent.Some? && succeeded) ==> deleteOpen == old(deleteOpen) && deleteId == old(deleteId)
      ensures users == old(users) && searchTerm == old(searchTerm)
      ensures isAddModalOpen == old(isAddModalOpen) && newUser == old(newUser)
    {
      sent := DeletePath(deleteId);
      if sent.None? {
        return;
      }
      if succeeded {
        deleteOpen, deleteId := false, None;
      }
    }

    /** `handleAddUser`, given whether the request succeeded: nothing is sent unless
        name, email and password are all filled in; a success closes the modal and
        resets the form with role `user`. */
    method AddUser(succeeded: bool) returns (sent: Option<NewUser>)
      requires Valid()
      modifies this
      ensures Valid()
      ensures sent.Some? <==> Complete(old(newUser))
      ensures sent.Some? ==> sent.value == old(newUser)
      ensures sent.Some? && succeeded ==> !isAddModalOpen && newUser == EmptyNewUser()
      ensures !(sent.Some? && succeeded) ==> isAddModalOpen == old(isAddModalOpen) && newUser == old(newUser)
      ensures users == old(users) && searchTerm == old(searchTerm)
      ensures deleteOpen == old(deleteOpen) && deleteId == old(deleteId)
    {
      if newUser.name == "" || newUser.email == "" || newUser.password == "" {
        return None;
      }
      sent := Some(newUser);
      if succeeded {
        isAddModalOpen := false;
        newUser := EmptyNewUser();
      }
    }
  }
}
