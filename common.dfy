/** Values shared by every part of the model: optional values, JavaScript values and
    their truthiness, ASCII lower-casing, substring search, decimal rendering and
    parsing, and an order-preserving filter. */
module Common {

  datatype Option<T> = None | Some(value: T)

  /** An HTTP response: a JSON body with a status code, a JSON `{ message }` with a
      status code, the plain-text 500 'Server error' every handler's catch sends, or the
      rejection sent by the shared `adminAuth` of `backend/middleware/auth.js`, whose
      text is not part of this model. */
  datatype Reply<T> =
    | Json(status: int, value: T)
    | Message(status: int, message: string)
    | ServerError
    | Denied

  /** What an Express middleware does with a request: pass it on with `next()`, or send
      a JSON `{ message }` response with a status code. It never does both. */
  datatype Guard = Next | Respond(status: int, message: string)

  /** A value bound to a SQL placeholder: `undefined` (the driver refuses the whole
      statement), `null` (SQL NULL), or a value. */
  datatype Field<T> = Absent | NullValue | Given(value: T)

  /** A placeholder value the driver accepts. */
  predicate Bindable<T>(f: Field<T>)
  {
    !f.Absent?
  }

  /** The column value a bound field stores. */
  function Stored<T>(f: Field<T>): (r: Option<T>)
    requires Bindable(f)
    ensures r.Some? <==> f.Given?
    ensures f.Given? ==> r.value == f.value
  {
    if f.Given? then Some(f.value) else None
  }

  /** A JSON request field as the JavaScript handlers see it. Numbers are modelled as
      integers (floating point and NaN are not modelled). Of an object only its `length`
      property is kept (`Undefined` when it has none). */
  datatype JsValue =
    | Undefined
    | Null
    | Bool(b: bool)
    | Num(n: int)
    | Str(s: string)
    | Arr(items: seq<JsValue>)
    | Obj(length: JsValue)

  /** JavaScript truthiness: `!v` is false exactly for these values. */
  predicate Truthy(v: JsValue)
  {
    match v
    case Undefined => false
    case Null => false
    case Bool(b) => b
    case Num(n) => n != 0
    case Str(s) => s != ""
    case Arr(_) => true
    case Obj(_) => true
  }

  /** The UTF-16 code units of one character: two for a character outside the Basic
      Multilingual Plane (a surrogate pair), one otherwise. */
  function Utf16Units(c: char): nat
  {
    if c as int > 0xFFFF then 2 else 1
  }

  /** A JavaScript string's `.length`: its UTF-16 code units, not its characters. */
  function Utf16Length(s: string): (r: nat)
    ensures |s| <= r <= 2 * |s|
    ensures (forall i :: 0 <= i < |s| ==> s[i] as int <= 0xFFFF) ==> r == |s|
  {
    if s == [] then 0 else Utf16Units(s[0]) + Utf16Length(s[1..])
  }

  /** `v.length` on a value that is neither `null` nor `undefined`: a string's UTF-16 code
      units, an array's elements, an object's own `length` property; a number or a
      boolean has none. */
  function LengthOf(v: JsValue): (r: JsValue)
    ensures v.Str? ==> r == Num(Utf16Length(v.s))
    ensures v.Arr? ==> r == Num(|v.items|)
    ensures v.Obj? ==> r == v.length
    ensures v.Bool? || v.Num? ==> r == Undefined
  {
    match v
    case Str(s) => Num(Utf16Length(s))
    case Arr(a) => Num(|a|)
    case Obj(length) => length
    case _ => Undefined
  }

  predicate AllDigits(s: string)
  {
    forall i :: 0 <= i < |s| ==> IsDigit(s[i])
  }

  /** `Number(s)` for the numerals this model reads, `None` standing for NaN: the empty
      string is 0, and decimal digits with an optional leading minus sign are their
      value. */
  function StringToNumber(s: string): (r: Option<int>)
    ensures s == "" ==> r == Some(0)
    ensures s != "" && AllDigits(s) ==> r == Some(DigitsValue(s))
    ensures |s| > 1 && s[0] == '-' && AllDigits(s[1..]) ==> r == Some(0 - DigitsValue(s[1..]) as int)
  {
    if s == "" then Some(0)
    else if AllDigits(s) then Some(DigitsValue(s))
    else if |s| > 1 && s[0] == '-' && AllDigits(s[1..]) then Some(0 - DigitsValue(s[1..]) as int)
    else None
  }

  /** `Number(v)`, `None` standing for NaN. `null` is 0, a boolean 0 or 1; an array
      converts through its joined text, so `[]` is 0, a one-element array converts as its
      element's text (`""` for `null` and `undefined`) and a longer one is NaN; an object's
      text is `[object Object]`, NaN. */
  function ToNumber(v: JsValue): (r: Option<int>)
    ensures v.Undefined? || v.Obj? ==> r.None?
    ensures v.Null? || v == Arr([]) ==> r == Some(0)
    ensures v.Num? ==> r == Some(v.n)
    ensures v.Arr? && |v.items| > 1 ==> r.None?
  {
    match v
    case Undefined => None
    case Null => Some(0)
    case Bool(b) => Some(if b then 1 else 0)
    case Num(n) => Some(n)
    case Str(s) => StringToNumber(s)
    case Obj(_) => None
    case Arr(items) =>
      if |items| == 0 then Some(0)
      else if |items| > 1 then None
      else
        match items[0]
        case Undefined => Some(0)
        case Null => Some(0)
        case Bool(_) => None
        case _ => ToNumber(items[0])
  }

  /** `v < n` for a number `n`: `v` is converted to a number, and NaN compares false. */
  predicate LessThan(v: JsValue, n: int)
  {
    ToNumber(v).Some? && ToNumber(v).value < n
  }

  /** A nullable string column or field is truthy when present and non-empty. */
  predicate Present(o: Option<string>)
  {
    o.Some? && o.value != ""
  }

  /** `x || ''` on a nullable string. */
  function OrEmpty(o: Option<string>): (r: string)
    ensures o.Some? ==> r == o.value
    ensures o.None? ==> r == ""
  {
    match o
    case Some(s) => s
    case None => ""
  }

  /** `String.prototype.toLowerCase` restricted to ASCII letters. */
  function LowerChar(c: char): (r: char)
    ensures 'A' <= c <= 'Z' ==> r as int == c as int + 32
    ensures !('A' <= c <= 'Z') ==> r == c
  {
    if 'A' <= c <= 'Z' then (c as int + 32) as char else c
  }

  function Lower(s: string): (r: string)
    ensures |r| == |s|
    ensures forall i :: 0 <= i < |s| ==> r[i] == LowerChar(s[i])
  {
    if s == [] then [] else [LowerChar(s[0])] + Lower(s[1..])
  }

  /** `sub` occurs in `s` starting at index `i`. */
  predicate OccursAt(s: string, sub: string, i: int)
  {
    0 <= i <= |s| - |sub| && sub == s[i..i + |sub|]
  }

  /** `s.includes(sub)`: `sub` occurs in `s` at some position. */
  function Includes(s: string, sub: string): (r: bool)
    ensures r <==> exists i :: OccursAt(s, sub, i)
    ensures |sub| == 0 ==> r
  {
    if |sub| <= |s| && sub == s[..|sub|] then
      assert OccursAt(s, sub, 0);
      true
    else if |s| == 0 then
      false
    else
      var r := Includes(s[1..], sub);
      assert r ==> exists i :: OccursAt(s, sub, i) by {
        if r {
          var j :| OccursAt(s[1..], sub, j);
          assert sub == s[j + 1..j + 1 + |sub|];
          assert OccursAt(s, sub, j + 1);
        }
      }
      assert (exists i :: OccursAt(s, sub, i)) ==> r by {
        if exists i :: OccursAt(s, sub, i) {
          var i :| OccursAt(s, sub, i);
          assert i != 0;
          assert sub == s[i..i + |sub|];
          assert s[1..][i - 1..i - 1 + |sub|] == s[i..i + |sub|];
          assert OccursAt(s[1..], sub, i - 1);
        }
      }
      r
  }

  /** Case-insensitive `includes`, as the search boxes use it. */
  predicate Matches(text: string, term: string)
  {
    Includes(Lower(text), Lower(term))
  }

  lemma EmptyTermMatches(text: string)
    ensures Matches(text, "")
  {
  }

  // Decimal rendering and parsing of natural numbers.

  predicate IsDigit(c: char)
  {
    '0' <= c <= '9'
  }

  function Digit(d: nat): (c: char)
    requires d < 10
    ensures IsDigit(c) && c as int - '0' as int == d
  {
    (d + '0' as int) as char
  }

  /** `n.toString()` for a natural number. */
  function NatToString(n: nat): (s: string)
    ensures |s| >= 1
    ensures forall i :: 0 <= i < |s| ==> IsDigit(s[i])
    ensures n < 10 ==> |s| == 1
    ensures n >= 10 ==> |s| >= 2
  {
    if n < 10 then [Digit(n)] else NatToString(n / 10) + [Digit(n % 10)]
  }

  /** The value of a string made of decimal digits. */
  function DigitsValue(s: string): nat
    requires forall i :: 0 <= i < |s| ==> IsDigit(s[i])
  {
    if s == [] then 0
    else
      assert IsDigit(s[|s| - 1]);
      DigitsValue(s[..|s| - 1]) * 10 + (s[|s| - 1] as int - '0' as int) as nat
  }

  lemma {:induction false} DigitsValueOfNatToString(n: nat)
    ensures DigitsValue(NatToString(n)) == n
  {
    if n >= 10 {
      var s := NatToString(n);
      assert s[..|s| - 1] == NatToString(n / 10);
      DigitsValueOfNatToString(n / 10);
    }
  }

  /** Keeps the elements that satisfy `p`, in their order (`Array.prototype.filter`). */
  function Filter<T>(s: seq<T>, p: T -> bool): (r: seq<T>)
    ensures |r| <= |s|
    ensures forall i :: 0 <= i < |r| ==> r[i] in s && p(r[i])
    ensures forall i :: 0 <= i < |s| && p(s[i]) ==> s[i] in r
    ensures multiset(r) <= multiset(s)
  {
    if s == [] then []
    else
      assert s == [s[0]] + s[1..];
      if p(s[0]) then [s[0]] + Filter(s[1..], p)
      else Filter(s[1..], p)
  }

  /** Filtering distributes over concatenation: it never reorders. */
  lemma {:induction false} FilterAppend<T>(a: seq<T>, b: seq<T>, p: T -> bool)
    ensures Filter(a + b, p) == Filter(a, p) + Filter(b, p)
  {
    if a == [] {
      assert a + b == b;
    } else {
      assert (a + b)[0] == a[0];
      assert (a + b)[1..] == a[1..] + b;
      FilterAppend(a[1..], b, p);
    }
  }

  /** When every element satisfies `p`, filtering keeps the whole sequence. */
  lemma {:induction false} FilterAll<T>(s: seq<T>, p: T -> bool)
    requires forall i :: 0 <= i < |s| ==> p(s[i])
    ensures Filter(s, p) == s
  {
    if s != [] {
      FilterAll(s[1..], p);
    }
  }

  /** No two elements share a key. */
  ghost predicate DistinctBy<T, K>(s: seq<T>, key: T -> K)
  {
    forall i, j :: 0 <= i < j < |s| ==> key(s[i]) != key(s[j])
  }
  lemma HeadKeyFresh<T, K>(s: seq<T>, key: T -> K, x: T)
    requires |s| > 0 && DistinctBy(s, key) && x in s[1..]
    ensures key(s[0]) != key(x)
  {
    var k :| 0 <= k < |s[1..]| && s[1..][k] == x;
    assert s[k + 1] == x;
  }

  lemma TailDistinct<T, K>(s: seq<T>, key: T -> K)
    requires |s| > 0 && DistinctBy(s, key)
    ensures DistinctBy(s[1..], key)
  {
    var t := s[1..];
    forall i, j | 0 <= i < j < |t| ensures key(t[i]) != key(t[j]) {
      assert t[i] == s[i + 1] && t[j] == s[j + 1];
    }
  }

  /** Putting an element with a fresh key in front keeps the keys distinct. */
  lemma ConsDistinct<T, K>(x: T, rest: seq<T>, key: T -> K)
    requires DistinctBy(rest, key)
    requires forall y :: y in rest ==> key(x) != key(y)
    ensures DistinctBy([x] + rest, key)
  {
    var r := [x] + rest;
    forall i, j | 0 <= i < j < |r| ensures key(r[i]) != key(r[j]) {
      assert r[j] == rest[j - 1];
      if i > 0 {
        assert r[i] == rest[i - 1];
      }
    }
  }

  /** Filtering keeps a key that was distinct across the sequence distinct. */
  lemma {:induction false} FilterKeepsDistinct<T, K>(s: seq<T>, p: T -> bool, key: T -> K)
    requires DistinctBy(s, key)
    ensures DistinctBy(Filter(s, p), key)
  {
    if s != [] {
      var t := s[1..];
      TailDistinct(s, key);
      FilterKeepsDistinct(t, p, key);
      var rest := Filter(t, p);
      if p(s[0]) {
        assert Filter(s, p) == [s[0]] + rest;
        forall y | y in rest ensures key(s[0]) != key(y) {
          HeadKeyFresh(s, key, y);
        }
        ConsDistinct(s[0], rest, key);
      }
    }
  }

  /** The first `n` elements (SQL `LIMIT n`). */
  function Take<T>(s: seq<T>, n: nat): (r: seq<T>)
    ensures |r| <= n && |r| <= |s|
    ensures |s| <= n ==> r == s
    ensures r <= s
  {
    if |s| <= n then s else s[..n]
  }
}

/** A total order on keys (`seq<int>` compared lexicographically) and an insertion sort
    by key. Descending SQL orders use negated keys; names use their character codes. */
module Sorting {
  import opened Common

  predicate LexLe(a: seq<int>, b: seq<int>)
  {
    |a| == 0 || (|b| > 0 && (a[0] < b[0] || (a[0] == b[0] && LexLe(a[1..], b[1..]))))
  }

  lemma {:induction false} LexLeTotal(a: seq<int>, b: seq<int>)
    ensures LexLe(a, b) || LexLe(b, a)
  {
    if |a| > 0 && |b| > 0 && a[0] == b[0] {
      LexLeTotal(a[1..], b[1..]);
    }
  }

  lemma {:induction false} LexLeTrans(a: seq<int>, b: seq<int>, c: seq<int>)
    requires LexLe(a, b) && LexLe(b, c)
    ensures LexLe(a, c)
  {
    if |a| > 0 && a[0] == b[0] && b[0] == c[0] {
      LexLeTrans(a[1..], b[1..], c[1..]);
    }
  }

  lemma {:induction false} LexLeAntisym(a: seq<int>, b: seq<int>)
    requires LexLe(a, b) && LexLe(b, a)
    ensures a == b
  {
    if |a| > 0 {
      LexLeAntisym(a[1..], b[1..]);
      assert a == [a[0]] + a[1..];
      assert b == [b[0]] + b[1..];
    }
  }

  function Codes(s: string): (r: seq<int>)
    ensures |r| == |s|
    ensures forall i :: 0 <= i < |s| ==> r[i] == s[i] as int
  {
    seq(|s|, i requires 0 <= i < |s| => s[i] as int)
  }

  predicate SortedBy<T>(s: seq<T>, key: T -> seq<int>)
  {
    forall i, j :: 0 <= i < j < |s| ==> LexLe(key(s[i]), key(s[j]))
  }

  /** A head no greater than any element of a sorted tail keeps the sequence sorted. */
  lemma ConsSorted<T>(h: T, t: seq<T>, key: T -> seq<int>)
    requires SortedBy(t, key)
    requires forall j :: 0 <= j < |t| ==> LexLe(key(h), key(t[j]))
    ensures SortedBy([h] + t, key)
  {
    var r := [h] + t;
    forall i, j | 0 <= i < j < |r| ensures LexLe(key(r[i]), key(r[j])) {
      assert r[j] == t[j - 1];
      if i > 0 {
        assert r[i] == t[i - 1];
      }
    }
  }

  /** An element no greater than the head of a sorted sequence is no greater than any
      of its elements. */
  lemma BelowHead<T>(x: T, s: seq<T>, key: T -> seq<int>)
    requires SortedBy(s, key) && (s == [] || LexLe(key(x), key(s[0])))
    ensures forall j :: 0 <= j < |s| ==> LexLe(key(x), key(s[j]))
  {
    forall j | 0 < j < |s| ensures LexLe(key(x), key(s[j])) {
      LexLeTrans(key(x), key(s[0]), key(s[j]));
    }
  }

  /** The head of a sorted sequence is no greater than anything the insertion into its
      tail produces. */
  lemma HeadBelowInserted<T>(x: T, s: seq<T>, t: seq<T>, key: T -> seq<int>)
    requires SortedBy(s, key) && s != [] && LexLe(key(s[0]), key(x))
    requires multiset(t) == multiset(s[1..]) + multiset{x}
    ensures forall j :: 0 <= j < |t| ==> LexLe(key(s[0]), key(t[j]))
  {
    forall j | 0 <= j < |t| ensures LexLe(key(s[0]), key(t[j])) {
      assert t[j] in multiset(t);
      if t[j] != x {
        assert t[j] in multiset(s[1..]);
        var k :| 0 <= k < |s[1..]| && s[1..][k] == t[j];
        assert s[k + 1] == t[j];
      }
    }
  }

  function Insert<T>(x: T, s: seq<T>, key: T -> seq<int>): (r: seq<T>)
    requires SortedBy(s, key)
    ensures multiset(r) == multiset(s) + multiset{x}
    ensures SortedBy(r, key)
  {
    if s == [] || LexLe(key(x), key(s[0])) then
      BelowHead(x, s, key);
      ConsSorted(x, s, key);
      [x] + s
    else
      LexLeTotal(key(x), key(s[0]));
      assert s == [s[0]] + s[1..];
      var t := Insert(x, s[1..], key);
      HeadBelowInserted(x, s, t, key);
      ConsSorted(s[0], t, key);
      [s[0]] + t
  }

  /** Reorders `s` so that keys are ascending; a permutation of `s`. */
  function SortBy<T>(s: seq<T>, key: T -> seq<int>): (r: seq<T>)
    ensures multiset(r) == multiset(s)
    ensures |r| == |s|
    ensures SortedBy(r, key)
  {
    if s == [] then []
    else
      assert s == [s[0]] + s[1..];
      var r := Insert(s[0], SortBy(s[1..], key), key);
      assert |r| == |multiset(r)|;
      r
  }
}
