/** The command palette of the layout: the navigation items a user sees, the query
    filter, and the palette's state (open, query, highlighted index) under the keyboard
    and mouse events it handles. */
module GlobalSearch {
  import opened Common

  datatype Item = Item(name: string, path: string, section: string)

  function BaseItems(): seq<Item>
  {
    [ Item("Dashboard", "/dashboard", "Pages"),
      Item("My Bookings", "/my-bookings", "Pages"),
      Item("Calendar", "/calendar", "Pages"),
      Item("New Booking", "/new-booking", "Actions"),
      Item("Settings", "/settings", "Account") ]
  }

  function AdminItems(): seq<Item>
  {
    [ Item("Admin Dashboard", "/admin", "Admin"),
      Item("Manage Resources", "/admin/resources", "Admin"),
      Item("Manage Users", "/admin/users", "Admin") ]
  }

  /** `allItems`: the five base entries, then the three admin entries only for an
      administrator (`user?.role === 'admin'`; no user sees the base entries). */
  function AllItems(role: Option<string>): (r: seq<Item>)
    ensures |r| >= 5 && r[..5] == BaseItems()
    ensures role == Some("admin") ==> |r| == 8 && r[5..] == AdminItems()
    ensures role != Some("admin") ==> r == BaseItems()
    ensures (exists i :: 0 <= i < |r| && r[i].section == "Admin") <==> role == Some("admin")
  {
    if role == Some("admin") then
      var r := BaseItems() + AdminItems();
      assert r[5].section == "Admin";
      r
    else BaseItems()
  }

  /** The component body: the base list, then `allItems.push(...)` of the admin entries
      for an administrator. */
  method BuildItems(role: Option<string>) returns (items: seq<Item>)
    ensures items == AllItems(role)
  {
    items := BaseItems();
    if role == Some("admin") {
      var admin := AdminItems();
      var k := 0;
      while k < |admin|
        invariant 0 <= k <= |admin|
        invariant items == BaseItems() + admin[..k]
      {
        items := items + [admin[k]];
        assert admin[..k + 1] == admin[..k] + [admin[k]];
        k := k + 1;
      }
      assert admin[..|admin|] == admin;
    }
  }

  /** `filteredItems`: everything for an empty query, otherwise the items whose lower-cased
      name contains the lower-cased query, in their order. */
  function Filtered(items: seq<Item>, query: string): (r: seq<Item>)
    ensures query == "" ==> r == items
    ensures |r| <= |items|
  {
    if query == "" then items else Filter(items, (it: Item) => Matches(it.name, query))
  }

  /** An item is shown exactly when it is one of the items and its name matches. */
  lemma FilteredMembers(items: seq<Item>, query: string, it: Item)
    ensures it in Filtered(items, query) <==> it in items && Matches(it.name, query)
  {
    var r := Filtered(items, query);
    if query == "" {
      EmptyTermMatches(it.name);
    } else {
      if it in items && Matches(it.name, query) {
        var k :| 0 <= k < |items| && items[k] == it;
      }
      if it in r {
        var k :| 0 <= k < |r| && r[k] == it;
      }
    }
  }

  /** The empty query matches every name too, so filtering by it is the identity either
      way. */
  lemma {:induction false} EmptyQueryKeepsAll(items: seq<Item>)
    ensures Filter(items, (it: Item) => Matches(it.name, "")) == items
  {
    forall i | 0 <= i < |items| ensures Matches(items[i].name, "") {
      EmptyTermMatches(items[i].name);
    }
    FilterAll(items, (it: Item) => Matches(it.name, ""));
  }

  /** `activeIndex`: a number, or NaN once `% 0` has been taken. */
  datatype Index = At(i: int) | NaN

  /** `(prev + 1) % n` (JavaScript remainder; NaN for `n == 0` or a NaN operand). */
  function Down(idx: Index, n: nat): (r: Index)
    ensures n == 0 || idx.NaN? ==> r == NaN
    ensures n > 0 && idx.At? && 0 <= idx.i < n ==> r.At? && 0 <= r.i < n
    ensures n > 0 && idx.At? && 0 <= idx.i < n - 1 ==> r == At(idx.i + 1)
    ensures n > 0 && idx == At(n - 1) ==> r == At(0)
  {
    match idx
    case NaN => NaN
    case At(i) => if n == 0 then NaN else At(JsRem(i + 1, n))
  }

  /** `(prev - 1 + n) % n`. */
  function Up(idx: Index, n: nat): (r: Index)
    ensures n == 0 || idx.NaN? ==> r == NaN
    ensures n > 0 && idx.At? && 0 <= idx.i < n ==> r.At? && 0 <= r.i < n
    ensures n > 0 && idx.At? && 0 < idx.i < n ==> r == At(idx.i - 1)
    ensures n > 0 && idx == At(0) ==> r == At(n - 1)
  {
    match idx
    case NaN => NaN
    case At(i) => if n == 0 then NaN else At(JsRem(i - 1 + n, n))
  }

  /** `a % n` for a non-zero `n`: the sign follows the dividend. */
  function JsRem(a: int, n: int): (r: int)
    requires n > 0
    ensures a >= 0 ==> r == a % n
    ensures a >= 0 ==> 0 <= r < n
  {
    if a >= 0 then a % n else -((-a) % n)
  }

  /** ArrowUp undoes ArrowDown and ArrowDown undoes ArrowUp on a list with items. */
  lemma DownUpInverse(i: int, n: nat)
    requires 0 <= i < n
    ensures Up(Down(At(i), n), n) == At(i)
    ensures Down(Up(At(i), n), n) == At(i)
  {
  }

  /** With no results, any arrow key turns the index into NaN. */
  lemma ArrowOnEmptyIsNaN(idx: Index)
    ensures Down(idx, 0) == NaN && Up(idx, 0) == NaN
  {
  }

  /** The index the palette can hold for `n` visible items. */
  predicate InRange(idx: Index, n: nat)
  {
    match idx
    case NaN => n == 0
    case At(i) => 0 <= i && (i < n || i == 0)
  }

  /** `filteredItems[activeIndex]`, when it exists. */
  function ItemAt(items: seq<Item>, idx: Index): (r: Option<Item>)
    ensures r.Some? <==> idx.At? && 0 <= idx.i < |items|
    ensures r.Some? ==> r.value == items[idx.i]
  {
    match idx
    case NaN => None
    case At(i) => if 0 <= i < |items| then Some(items[i]) else None
  }

  class Palette {
    var isOpen: bool
    var query: string
    var activeIndex: Index
    /** `allItems`, fixed by the signed-in user's role. */
    const items: seq<Item>

    function Visible(): seq<Item>
      reads this
    {
      Filtered(items, query)
    }

    /** Closed: query and index reset by the effect on `isOpen`. Open: the index fits. */
    ghost predicate Valid()
      reads this
    {
      && (!isOpen ==> query == "" && activeIndex == At(0))
      && InRange(activeIndex, |Visible()|)
    }

    constructor (role: Option<string>)
      ensures Valid() && !isOpen && items == AllItems(role)
    {
      isOpen := false;
      query := "";
      activeIndex := At(0);
      items := AllItems(role);
    }

    /** Closing, and the effect that follows it. */
    method Close()
      requires Valid()
      modifies this
      ensures Valid() && !isOpen && query == "" && activeIndex == At(0)
    {
      isOpen := false;
      query := "";
      activeIndex := At(0);
    }

    /** Ctrl+K or Cmd+K: toggles. */
    method CommandK()
      requires Valid()
      modifies this
      ensures Valid() && isOpen == !old(isOpen)
      ensures isOpen ==> query == old(query) && activeIndex == old(activeIndex)
    {
      if isOpen {
        Close();
      } else {
        isOpen := true;
      }
    }

    /** Escape: always closes. */
    method Escape()
      requires Valid()
      modifies this
      ensures Valid() && !isOpen && query == "" && activeIndex == At(0)
    {
      Close();
    }

    /** The `open-global-search` event. */
    method OpenEvent()
      requires Valid()
      modifies this
      ensures Valid() && isOpen
      ensures query == old(query) && activeIndex == old(activeIndex)
    {
      isOpen := true;
    }

    /** Typing into the input (shown only while open) sets the query and resets the index. */
    method Type(text: string)
      requires Valid() && isOpen
      modifies this
      ensures Valid() && isOpen && query == text && activeIndex == At(0)
    {
      query := text;
      activeIndex := At(0);
    }

    method ArrowDown()
      requires Valid()
      modifies this
      ensures Valid() && isOpen == old(isOpen) && query == old(query)
      ensures old(isOpen) ==> activeIndex == Down(old(activeIndex), |Visible()|)
      ensures !old(isOpen) ==> activeIndex == old(activeIndex)
    {
      if isOpen {
        activeIndex := Down(activeIndex, |Visible()|);
      }
    }

    method ArrowUp()
      requires Valid()
      modifies this
      ensures Valid() && isOpen == old(isOpen) && query == old(query)
      ensures old(isOpen) ==> activeIndex == Up(old(activeIndex), |Visible()|)
      ensures !old(isOpen) ==> activeIndex == old(activeIndex)
    {
      if isOpen {
        activeIndex := Up(activeIndex, |Visible()|);
      }
    }

    /** Enter: navigates to the highlighted item, if there is one, and closes. */
    method Enter() returns (navigated: Option<string>)
      requires Valid()
      modifies this
      ensures Valid()
      ensures old(isOpen) && ItemAt(old(Visible()), old(activeIndex)).Some? ==>
        navigated == Some(ItemAt(old(Visible()), old(activeIndex)).value.path) && !isOpen
      ensures !(old(isOpen) && ItemAt(old(Visible()), old(activeIndex)).Some?) ==>
        navigated.None? && isOpen == old(isOpen) && query == old(query) && activeIndex == old(activeIndex)
    {
      navigated := None;
      if isOpen {
        var item := ItemAt(Visible(), activeIndex);
        if item.Some? {
          navigated := Some(item.value.path);
          Close();
        }
      }
    }

    /** Pointing at a rendered item highlights it. */
    method Hover(index: int)
      requires Valid() && isOpen && 0 <= index < |Visible()|
      modifies this
      ensures Valid() && isOpen && query == old(query) && activeIndex == At(index)
    {
      activeIndex := At(index);
    }

    /** Clicking a rendered item navigates to it and closes. */
    method Click(index: int) returns (navigated: string)
      requires Valid() && isOpen && 0 <= index < |Visible()|
      modifies this
      ensures Valid() && !isOpen
      ensures navigated == old(Visible())[index].path
    {
      navigated := Visible()[index].path;
      Close();
    }
  }
}
