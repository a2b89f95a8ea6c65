/** The administrator's resource page: the search filter over the fetched resources, the
    capacity input and its display, and the edit form with the request its save button
    sends. The HTTP calls are outside the model: their outcome is a parameter. */
module ResourceManagement {
  import opened Common

  /** A resource as the list endpoint returns it; text columns may be missing. */
  datatype Row = Row(
    id: nat, name: Option<string>, kind: Option<string>, location: Option<string>,
    capacity: Option<int>, isActive: bool)

  /** What `api.get('/resources')` produced: an array, some other JSON value, or a
      failure. */
  datatype Fetched = Rows(rows: seq<Row>) | NotAnArray | Failed

  /** `Array.isArray(res.data) ? res.data : []`, and `[]` in the catch. */
  function Listed(f: Fetched): (r: seq<Row>)
    ensures f.Rows? ==> r == f.rows
    ensures !f.Rows? ==> r == []
  {
    if f.Rows? then f.rows else []
  }

  /** The row predicate of `filteredResources`. */
  predicate Kept(term: string, r: Row)
  {
    Matches(OrEmpty(r.name), term) || Matches(OrEmpty(r.kind), term)
  }

  /** `(resources || []).filter(...)`; `None` is a null list. */
  function FilteredResources(resources: Option<seq<Row>>, term: string): (r: seq<Row>)
    ensures resources.None? ==> r == []
  {
    Filter(if resources.Some? then resources.value else [], (row: Row) => Kept(term, row))
  }

  /** A resource is shown exactly when its name or its type, lower-cased and with a
      missing value read as '', contains the lower-cased term. */
  lemma FilteredResourcesMembers(resources: seq<Row>, term: string, row: Row)
    ensures row in FilteredResources(Some(resources), term) <==>
      row in resources && (Matches(OrEmpty(row.name), term) || Matches(OrEmpty(row.kind), term))
  {
    var r := FilteredResources(Some(resources), term);
    if row in resources && Kept(term, row) {
      var k :| 0 <= k < |resources| && resources[k] == row;
    }
    if row in r {
      var k :| 0 <= k < |r| && r[k] == row;
    }
  }

  /** The filter keeps the list's order: filtering a concatenation concatenates the
      filtered parts. */
  lemma FilteredResourcesKeepsOrder(a: seq<Row>, b: seq<Row>, term: string)
    ensures FilteredResources(Some(a + b), term) ==
      FilteredResources(Some(a), term) + FilteredResources(Some(b), term)
  {
    FilterAppend(a, b, (row: Row) => Kept(term, row));
  }

  /** An empty search term keeps every resource. */
  lemma {:induction false} EmptyTermKeepsAll(resources: seq<Row>)
    ensures FilteredResources(Some(resources), "") == resources
  {
    forall i | 0 <= i < |resources| ensures Kept("", resources[i]) {
      EmptyTermMatches(OrEmpty(resources[i].name));
    }
    FilterAll(resources, (row: Row) => Kept("", row));
  }

  // `parseInt` on the text of the capacity input.

  predicate IsSpace(c: char)
  {
    c == ' ' || c == '\t' || c == '\n' || c == '\r'
  }

  function TrimStart(s: string): (r: string)
    ensures |r| <= |s| && r == s[|s| - |r|..]
    ensures r == [] || !IsSpace(r[0])
  {
    if s != [] && IsSpace(s[0]) then TrimStart(s[1..]) else s
  }

  /** The longest prefix made of decimal digits. */
  function DigitPrefix(s: string): (r: string)
    ensures |r| <= |s| && r == s[..|r|]
    ensures forall i :: 0 <= i < |r| ==> IsDigit(r[i])
    ensures |r| < |s| ==> !IsDigit(s[|r|])
  {
    if s != [] && IsDigit(s[0]) then [s[0]] + DigitPrefix(s[1..]) else []
  }

  predicate IsHexDigit(c: char)
  {
    IsDigit(c) || ('a' <= c <= 'f') || ('A' <= c <= 'F')
  }

  function HexDigitValue(c: char): (v: nat)
    requires IsHexDigit(c)
    ensures v < 16
  {
    if IsDigit(c) then c as int - '0' as int
    else if 'a' <= c <= 'f' then c as int - 'a' as int + 10
    else c as int - 'A' as int + 10
  }

  /** The longest prefix made of hexadecimal digits. */
  function HexPrefix(s: string): (r: string)
    ensures |r| <= |s| && r == s[..|r|]
    ensures forall i :: 0 <= i < |r| ==> IsHexDigit(r[i])
    ensures |r| < |s| ==> !IsHexDigit(s[|r|])
  {
    if s != [] && IsHexDigit(s[0]) then [s[0]] + HexPrefix(s[1..]) else []
  }

  /** The value of a string of hexadecimal digits. */
  function HexValue(s: string): nat
    requires forall i :: 0 <= i < |s| ==> IsHexDigit(s[i])
  {
    if s == [] then 0
    else
      assert IsHexDigit(s[|s| - 1]);
      HexValue(s[..|s| - 1]) * 16 + HexDigitValue(s[|s| - 1])
  }

  /** The text after the sign starts with `0x` or `0X`. */
  predicate HexMarked(rest: string)
  {
    |rest| >= 2 && rest[0] == '0' && (rest[1] == 'x' || rest[1] == 'X')
  }

  /** `parseInt(text)` without a radix, with NaN as `None`: leading white space, an
      optional sign, then either `0x`/`0X` and the hexadecimal digits that follow, or the
      decimal digits up to the first non-digit. */
  function ParseInt(text: string): Option<int>
  {
    var t := TrimStart(text);
    var negative := t != [] && t[0] == '-';
    var rest := if t != [] && (t[0] == '-' || t[0] == '+') then t[1..] else t;
    if HexMarked(rest) then
      var h := HexPrefix(rest[2..]);
      if h == [] then None
      else if negative then Some(0 - HexValue(h) as int)
      else Some(HexValue(h))
    else
      var d := DigitPrefix(rest);
      if d == [] then None
      else if negative then Some(0 - DigitsValue(d) as int)
      else Some(DigitsValue(d))
  }

  /** Without a radix a `0x` prefix switches to hexadecimal: `0x` and hexadecimal digits,
      then text that does not continue them, parse as the digits' value. */
  lemma {:induction false} ParseIntOfHex(h: string, suffix: string)
    requires h != [] && forall i :: 0 <= i < |h| ==> IsHexDigit(h[i])
    requires suffix == [] || !IsHexDigit(suffix[0])
    ensures ParseInt("0x" + h + suffix) == Some(HexValue(h))
  {
    var s := "0x" + h + suffix;
    TrimStartKeeps(s);
    assert HexMarked(s);
    assert s[2..] == h + suffix;
    HexPrefixOfPrefix(h, suffix);
  }

  lemma {:induction false} HexPrefixOfPrefix(h: string, suffix: string)
    requires forall i :: 0 <= i < |h| ==> IsHexDigit(h[i])
    requires suffix == [] || !IsHexDigit(suffix[0])
    ensures HexPrefix(h + suffix) == h
  {
    if h == [] {
      assert h + suffix == suffix;
    } else {
      assert (h + suffix)[1..] == h[1..] + suffix;
      HexPrefixOfPrefix(h[1..], suffix);
    }
  }

  /** `parseInt("0x1F")` is 31. */
  lemma ParseIntHexExample()
    ensures ParseInt("0x1F") == Some(31)
  {
    ParseIntOfHex("1F", "");
    assert "0x" + "1F" + "" == "0x1F";
    assert "1F"[..1] == "1";
    assert "1"[..0] == "";
  }

  /** `0x` with no hexadecimal digit after it is NaN. */
  lemma ParseIntHexNeedsDigits()
    ensures ParseInt("0xg") == None
  {
    var s := "0xg";
    TrimStartKeeps(s);
    assert HexMarked(s);
    assert s[2..] == "g";
    assert HexPrefix("g") == [];
  }

  /** `parseInt(e.target.value) || 0`: NaN and zero both become 0. */
  function CapacityOf(text: string): (r: int)
    ensures ParseInt(text).None? ==> r == 0
    ensures ParseInt(text).Some? ==> r == ParseInt(text).value
  {
    match ParseInt(text)
    case None => 0
    case Some(n) => n
  }

  lemma TrimStartKeeps(s: string)
    requires s != [] && !IsSpace(s[0])
    ensures TrimStart(s) == s
  {
  }

  /** Text that starts with a digit, and not with `0x` or `0X`, parses as its leading
      digits. */
  lemma ParseIntOfDigitStart(s: string)
    requires s != [] && IsDigit(s[0]) && !HexMarked(s)
    ensures DigitPrefix(s) != []
    ensures ParseInt(s) == Some(DigitsValue(DigitPrefix(s)))
  {
    TrimStartKeeps(s);
  }

  /** A decimal number followed by text that does not start with a digit parses as
      that number, unless the number is 0 and the text starts with `x` or `X`. */
  lemma {:induction false} ParseIntOfDecimal(n: nat, suffix: string)
    requires suffix == [] || !IsDigit(suffix[0])
    requires n == 0 && suffix != [] ==> suffix[0] != 'x' && suffix[0] != 'X'
    ensures ParseInt(NatToString(n) + suffix) == Some(n)
  {
    var d := NatToString(n);
    var s := d + suffix;
    assert s[0] == d[0];
    assert !HexMarked(s) by {
      if n >= 10 {
        assert s[1] == d[1] && IsDigit(d[1]);
      } else if n > 0 {
        assert s[0] == Digit(n);
      } else if |s| >= 2 {
        assert s[1] == suffix[0];
      }
    }
    ParseIntOfDigitStart(s);
    DigitPrefixOfPrefix(d, suffix);
    DigitsValueOfNatToString(n);
  }

  /** Typing a capacity in decimal gives that capacity back, whatever follows the digits
      (`parseInt` stops at the first non-digit) save an `x` after a lone 0; an empty input
      gives 0. */
  lemma CapacityOfDecimal(n: nat, suffix: string)
    requires suffix == [] || !IsDigit(suffix[0])
    requires n == 0 && suffix != [] ==> suffix[0] != 'x' && suffix[0] != 'X'
    ensures CapacityOf(NatToString(n) + suffix) == n
    ensures CapacityOf("") == 0
  {
    ParseIntOfDecimal(n, suffix);
  }

  lemma {:induction false} DigitPrefixOfPrefix(d: string, suffix: string)
    requires forall i :: 0 <= i < |d| ==> IsDigit(d[i])
    requires suffix == [] || !IsDigit(suffix[0])
    ensures DigitPrefix(d + suffix) == d
  {
    if d == [] {
      assert d + suffix == suffix;
    } else {
      assert (d + suffix)[1..] == d[1..] + suffix;
      DigitPrefixOfPrefix(d[1..], suffix);
    }
  }

  /** The capacity cell: the number when it is positive, otherwise '-'. */
  datatype Cell = Number(n: int) | Dash

  function CapacityCell(capacity: Option<int>): (r: Cell)
    ensures r.Number? <==> capacity.Some? && capacity.value > 0
    ensures r.Number? ==> r.n == capacity.value && r.n > 0
  {
    if capacity.Some? && capacity.value > 0 then Number(capacity.value) else Dash
  }

  // The edit form and the request the save button sends.

  /** The file input: nothing chosen, or a `File`. */
  datatype Image = NoImage | File(fileName: string)

  datatype Form = Form(name: string, kind: string, capacity: int, location: string, image: Image)

  datatype Part = Text(key: string, text: string) | FilePart(key: string, file: string)

  datatype Target = Post(path: string) | Put(path: string)

  datatype Request = Request(target: Target, parts: seq<Part>)

  function EmptyForm(): Form
  {
    Form("", "Room", 0, "", NoImage)
  }

  /** `handleEditClick`: the row's values, `capacity || 0`, `location || ''`, and no
      image. */
  function FormOf(row: Row): (f: Form)
    ensures f.name == OrEmpty(row.name) && f.kind == OrEmpty(row.kind)
    ensures f.capacity == (if row.capacity.Some? then row.capacity.value else 0)
    ensures f.location == OrEmpty(row.location) && f.image == NoImage
  {
    Form(OrEmpty(row.name), OrEmpty(row.kind), if row.capacity.Some? then row.capacity.value else 0,
         OrEmpty(row.location), NoImage)
  }

  /** `String(n)` for an integer. */
  function IntToString(n: int): string
  {
    if n < 0 then "-" + NatToString(-n) else NatToString(n)
  }

  /** The multipart body: the four text fields, then the image only when it is a file. */
  function Parts(f: Form): (r: seq<Part>)
    ensures |r| >= 4
    ensures r[..4] == [Text("name", f.name), Text("type", f.kind), Text("capacity", IntToString(f.capacity)),
                       Text("location", f.location)]
    ensures f.image.File? ==> r == r[..4] + [FilePart("image", f.image.fileName)]
    ensures f.image.NoImage? ==> |r| == 4
  {
    var text := [Text("name", f.name), Text("type", f.kind), Text("capacity", IntToString(f.capacity)),
                 Text("location", f.location)];
    if f.image.File? then text + [FilePart("image", f.image.fileName)] else text
  }

  /** `handleSaveResource`: refused while the name is empty; otherwise a PUT to the
      edited resource or a POST of a new one. */
  function SaveRequest(f: Form, editingId: Option<nat>): (r: Option<Request>)
    ensures r.None? <==> f.name == ""
    ensures r.Some? ==> r.value.parts == Parts(f)
    ensures r.Some? && editingId.Some? && editingId.value != 0 ==>
      r.value.target == Put("/resources/" + NatToString(editingId.value))
    ensures r.Some? && !(editingId.Some? && editingId.value != 0) ==> r.value.target == Post("/resources")
  {
    if f.name == "" then None
    else if editingId.Some? && editingId.value != 0 then
      Some(Request(Put("/resources/" + NatToString(editingId.value)), Parts(f)))
    else Some(Request(Post("/resources"), Parts(f)))
  }

  /** A file part is sent exactly when a file was chosen. */
  lemma ImageSentOnlyAsFile(f: Form)
    ensures (exists i :: 0 <= i < |Parts(f)| && Parts(f)[i].FilePart?) <==> f.image.File?
  {
    if f.image.File? {
      assert Parts(f)[4].FilePart?;
    }
  }

  /** Editing a named row and saving without changes sends a PUT to that row with its
      name, its capacity (0 when it had none) and no image. */
  lemma EditThenSave(row: Row)
    requires row.id != 0 && Present(row.name)
    ensures SaveRequest(FormOf(row), Some(row.id)).Some?
    ensures var req := SaveRequest(FormOf(row), Some(row.id)).value;
      req.target == Put("/resources/" + NatToString(row.id)) && |req.parts| == 4 &&
      req.parts[0] == Text("name", row.name.value) &&
      req.parts[2] == Text("capacity", IntToString(if row.capacity.Some? then row.capacity.value else 0))
  {
  }

  /** `confirmDeleteResource`: nothing happens without a selected id. */
  function DeletePath(id: Option<nat>): (r: Option<string>)
    ensures r.None? <==> id.None? || id.value == 0
    ensures r.Some? ==> r.value == "/resources/" + NatToString(id.value)
  {
    if id.Some? && id.value != 0 then Some("/resources/" + NatToString(id.value)) else None
  }

  /** The page's state. */
  class ResourcePage {
    var resources: seq<Row>
    var searchTerm: string
    var isModalOpen: bool
    var editingId: Option<nat>
    var form: Form

    constructor ()
      ensures resources == [] && searchTerm == "" && !isModalOpen && editingId.None? && form == EmptyForm()
    {
      resources, searchTerm, isModalOpen, editingId, form := [], "", false, None, EmptyForm();
    }

    /** `fetchResources`. */
    method Fetch(f: Fetched)
      modifies this
      ensures resources == Listed(f)
      ensures searchTerm == old(searchTerm) && isModalOpen == old(isModalOpen)
      ensures editingId == old(editingId) && form == old(form)
    {
      resources := Listed(f);
    }

    /** The table's rows. */
    function Shown(): seq<Row>
      reads this
    {
      FilteredResources(Some(resources), searchTerm)
    }

    method EditClick(row: Row)
      modifies this
      ensures editingId == Some(row.id) && form == FormOf(row) && isModalOpen
      ensures resources == old(resources) && searchTerm == old(searchTerm)
    {
      editingId := Some(row.id);
      form := FormOf(row);
      isModalOpen := true;
    }

    /** The capacity input. */
    method TypeCapacity(text: string)
      modifies this
      ensures form == old(form).(capacity := CapacityOf(text))
      ensures resources == old(resources) && searchTerm == old(searchTerm)
      ensures isModalOpen == old(isModalOpen) && editingId == old(editingId)
    {
      form := form.(capacity := CapacityOf(text));
    }

    /** Save, given whether the request succeeded: refused with an empty name; after a
        success the modal closes and the form and the edited id reset; after a failure
        the state stays as it was. */
    method Save(succeeded: bool) returns (sent: Option<Request>)
      modifies this
      ensures sent == SaveRequest(old(form), old(editingId))
      ensures sent.Some? && succeeded ==> !isModalOpen && form == EmptyForm() && editingId.None?
      ensures !(sent.Some? && succeeded) ==>
        isModalOpen == old(isModalOpen) && form == old(form) && editingId == old(editingId)
      ensures resources == old(resources) && searchTerm == old(searchTerm)
    {
      if form.name == "" {
        sent := None;
        return;
      }
      sent := SaveRequest(form, editingId);
      if succeeded {
        isModalOpen := false;
        form := EmptyForm();
        editingId := None;
      }
    }
  }
}
