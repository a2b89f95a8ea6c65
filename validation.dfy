/** The request validators that run before the register, login and booking handlers.
    Each looks only at request fields, with JavaScript truthiness, and either answers 400
    or passes the request on; a `Guard` cannot do both. */
module Validation {
  import opened Common

  /** `password.length < 6`, with JavaScript's `<`: a string or an array by its length, an
      object by its `length` property converted to a number; a number or a boolean has
      no length, and `undefined < 6` is false. */
  predicate TooShort(password: JsValue)
  {
    LessThan(LengthOf(password), 6)
  }

  /** `validateRegister`: all three fields first, the password length only then. */
  function ValidateRegister(email: JsValue, password: JsValue, name: JsValue): (r: Guard)
    ensures r == Respond(400, "Please enter all fields") <==> !Truthy(email) || !Truthy(password) || !Truthy(name)
    ensures r == Respond(400, "Password must be at least 6 characters") <==>
      Truthy(email) && Truthy(password) && Truthy(name) && TooShort(password)
    ensures r == Next <==> Truthy(email) && Truthy(password) && Truthy(name) && !TooShort(password)
  {
    if !Truthy(email) || !Truthy(password) || !Truthy(name) then Respond(400, "Please enter all fields")
    else if TooShort(password) then Respond(400, "Password must be at least 6 characters")
    else Next
  }

  /** A string password passes the register validator exactly when it has at least six
      characters and the other two fields are truthy; the empty string is reported as
      missing, not as short. */
  lemma RegisterStringPassword(email: JsValue, password: string, name: JsValue)
    ensures ValidateRegister(email, Str(password), name) == Next <==>
      Truthy(email) && Truthy(name) && Utf16Length(password) >= 6
    ensures password == "" ==> ValidateRegister(email, Str(password), name) == Respond(400, "Please enter all fields")
  {
  }

  /** The length test counts UTF-16 code units: three characters outside the Basic
      Multilingual Plane (emoji, say) make a password of length six, which passes, while
      five characters of the Basic Multilingual Plane are too short. */
  lemma {:induction false} RegisterCountsCodeUnits(email: JsValue, name: JsValue)
    requires Truthy(email) && Truthy(name)
    ensures ValidateRegister(email, Str(['\U{1F600}', '\U{1F601}', '\U{1F602}']), name) == Next
    ensures ValidateRegister(email, Str("abcde"), name) == Respond(400, "Password must be at least 6 characters")
  {
    var p := ['\U{1F600}', '\U{1F601}', '\U{1F602}'];
    assert p[1..][1..][1..] == [];
    assert Utf16Length(p) == 6;
  }

  /** An object password is judged by its `length` property as `<` converts it: the
      number 3, the text "3" and `null` (0) are too short; an object without `length`
      passes, and so does a `length` of "abc" (NaN). */
  lemma ObjectPasswordByLength(email: JsValue, name: JsValue)
    requires Truthy(email) && Truthy(name)
    ensures ValidateRegister(email, Obj(Num(3)), name) == Respond(400, "Password must be at least 6 characters")
    ensures ValidateRegister(email, Obj(Str("3")), name) == Respond(400, "Password must be at least 6 characters")
    ensures ValidateRegister(email, Obj(Null), name) == Respond(400, "Password must be at least 6 characters")
    ensures ValidateRegister(email, Obj(Undefined), name) == Next
    ensures ValidateRegister(email, Obj(Str("abc")), name) == Next
  {
    assert AllDigits("3");
    assert DigitsValue("3") == 3;
    assert !AllDigits("abc") && "abc"[0] != '-';
  }

  /** A truthy password with no length, such as a number, is never too short. */
  lemma RegisterNumericPassword(email: JsValue, n: int, name: JsValue)
    requires n != 0 && Truthy(email) && Truthy(name)
    ensures ValidateRegister(email, Num(n), name) == Next
  {
  }

  /** `validateLogin`. */
  function ValidateLogin(email: JsValue, password: JsValue): (r: Guard)
    ensures r == Next <==> Truthy(email) && Truthy(password)
    ensures r != Next ==> r == Respond(400, "Please enter all fields")
  {
    if !Truthy(email) || !Truthy(password) then Respond(400, "Please enter all fields") else Next
  }

  /** `validateBooking`: the four fields must be truthy; nothing relates start and end. */
  function ValidateBooking(resourceId: JsValue, date: JsValue, start: JsValue, end: JsValue): (r: Guard)
    ensures r == Next <==> Truthy(resourceId) && Truthy(date) && Truthy(start) && Truthy(end)
    ensures r != Next ==> r == Respond(400, "Missing required booking fields")
  {
    if !Truthy(resourceId) || !Truthy(date) || !Truthy(start) || !Truthy(end) then
      Respond(400, "Missing required booking fields")
    else Next
  }

  /** A booking whose end is before its start still passes validation, and a resource id
      of 0 is refused as missing. */
  lemma BookingOrderNotChecked(resourceId: int, date: string, start: string, end: string)
    requires resourceId != 0 && date != "" && start != "" && end != ""
    ensures ValidateBooking(Num(resourceId), Str(date), Str(start), Str(end)) == Next
    ensures ValidateBooking(Num(0), Str(date), Str(start), Str(end)) != Next
  {
  }
}
