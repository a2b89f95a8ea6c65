/** The calendar the dashboard's month labels come from: JavaScript `Date` fields (year,
    zero-based month, day of the month) and what `setMonth` does to them. */
module Calendar {

  datatype Date = Date(year: int, month: int, day: int)

  predicate LeapYear(y: int)
  {
    y % 4 == 0 && (y % 100 != 0 || y % 400 == 0)
  }

  /** Days in a zero-based month of the Gregorian calendar. */
  function DaysIn(y: int, m: int): (r: int)
    requires 0 <= m < 12
    ensures 28 <= r <= 31
  {
    if m == 1 then (if LeapYear(y) then 29 else 28)
    else if m == 3 || m == 5 || m == 8 || m == 10 then 30
    else 31
  }

  predicate ValidDate(d: Date)
  {
    0 <= d.month < 12 && 1 <= d.day <= DaysIn(d.year, d.month)
  }

  /** `d.setMonth(m)`: the month index is taken modulo 12 with the excess moved into the
      year, the day of the month is kept, and a day the target month does not have
      overflows into the following month. */
  function SetMonth(d: Date, m: int): (r: Date)
    requires ValidDate(d)
    ensures ValidDate(r)
    ensures d.day <= DaysIn(d.year + m / 12, m % 12) ==> r == Date(d.year + m / 12, m % 12, d.day)
    ensures d.day > DaysIn(d.year + m / 12, m % 12) ==>
      r.day == d.day - DaysIn(d.year + m / 12, m % 12) && r.month == (m + 1) % 12
  {
    var y, mo := d.year + m / 12, m % 12;
    if d.day <= DaysIn(y, mo) then Date(y, mo, d.day)
    else if mo == 11 then Date(y + 1, 0, d.day - DaysIn(y, mo))
    else Date(y, mo + 1, d.day - DaysIn(y, mo))
  }

  /** `d.setDate(1)`. */
  function FirstOfMonth(d: Date): (r: Date)
    requires ValidDate(d)
    ensures ValidDate(r) && r.year == d.year && r.month == d.month && r.day == 1
  {
    d.(day := 1)
  }

  /** From the first of a month, `setMonth` never overflows. */
  lemma SetMonthFromFirst(d: Date, m: int)
    requires ValidDate(d) && d.day == 1
    ensures SetMonth(d, m).month == m % 12
  {
  }
}

/** The dashboard statistics of `/api/analytics`: per-user counts as filters over the
    bookings table, the six month labels and their zero-filled counts, resource
    utilisation by type, and the administrator's totals. The current date (MySQL
    `CURDATE()`), the JavaScript clock and the locale's short month names are
    parameters. */
module Analytics {
  import opened Common
  import opened Sorting
  import opened Schema
  import opened BookingModel
  import opened Calendar

  // Counts.

  /** Two disjoint conditions that both imply a third select no more rows together than
      the third does. */
  lemma {:induction false} DisjointCountsBounded(s: seq<Booking>, p: Booking -> bool, q: Booking -> bool, all: Booking -> bool)
    requires forall b :: !(p(b) && q(b))
    requires forall b :: p(b) || q(b) ==> all(b)
    ensures |Filter(s, p)| + |Filter(s, q)| <= |Filter(s, all)|
  {
    if s != [] {
      DisjointCountsBounded(s[1..], p, q, all);
    }
  }

  predicate Mine(b: Booking, userId: int)
  {
    b.userId == userId
  }

  predicate Upcoming(b: Booking, userId: int, today: int)
  {
    b.userId == userId && b.date >= today && b.status != Cancelled
  }

  predicate CompletedBefore(b: Booking, userId: int, today: int)
  {
    b.userId == userId && b.date < today && b.status == Completed
  }

  /** One `COUNT(*) ... WHERE` of the user statistics. */
  function CountUpcoming(s: seq<Booking>, userId: int, today: int): (r: nat)
    ensures r <= |s|
    ensures r == 0 <==> forall b :: b in s ==> !Upcoming(b, userId, today)
  {
    var f := Filter(s, (b: Booking) => Upcoming(b, userId, today));
    assert f != [] ==> f[0] in f;
    |f|
  }

  function CountCompleted(s: seq<Booking>, userId: int, today: int): (r: nat)
    ensures r <= |s|
    ensures r == 0 <==> forall b :: b in s ==> !CompletedBefore(b, userId, today)
  {
    var f := Filter(s, (b: Booking) => CompletedBefore(b, userId, today));
    assert f != [] ==> f[0] in f;
    |f|
  }

  function CountMine(s: seq<Booking>, userId: int): (r: nat)
    ensures r <= |s|
    ensures r == 0 <==> forall b :: b in s ==> !Mine(b, userId)
  {
    var f := OwnedBy(s, userId);
    assert f != [] ==> f[0] in f;
    |f|
  }

  /** Upcoming and completed bookings are disjoint subsets of the user's bookings (one is
      dated today or later, the other before today). */
  lemma UpcomingPlusCompletedAtMostTotal(s: seq<Booking>, userId: int, today: int)
    ensures CountUpcoming(s, userId, today) + CountCompleted(s, userId, today) <= CountMine(s, userId)
  {
    DisjointCountsBounded(s, (b: Booking) => Upcoming(b, userId, today),
      (b: Booking) => CompletedBefore(b, userId, today), (b: Booking) => b.userId == userId);
  }

  /** `recentActivity`: the first five rows of the user's bookings, newest first. */
  function RecentActivity(s: seq<Booking>, userId: int): (r: seq<Booking>)
    ensures |r| <= 5
    ensures forall b :: b in r ==> b in s && b.userId == userId
    ensures NewestFirst(r)
    ensures r <= FindByUserId(s, userId)
    ensures |r| == if CountMine(s, userId) < 5 then CountMine(s, userId) else 5
  {
    var all := FindByUserId(s, userId);
    UserRowsCounted(s, userId);
    PrefixKeepsOrder(all, Take(all, 5));
    Take(all, 5)
  }

  /** The user's list holds as many rows as the user's count. */
  lemma UserRowsCounted(s: seq<Booking>, userId: int)
    ensures |FindByUserId(s, userId)| == CountMine(s, userId)
  {
    var all := FindByUserId(s, userId);
    assert |multiset(all)| == |multiset(OwnedBy(s, userId))|;
  }

  /** A prefix of a newest-first list holds only its rows and is newest-first. */
  lemma PrefixKeepsOrder(all: seq<Booking>, r: seq<Booking>)
    requires NewestFirst(all) && r <= all
    ensures NewestFirst(r) && forall b :: b in r ==> b in all
  {
    assert forall i :: 0 <= i < |r| ==> r[i] == all[i];
  }

  // The six month labels.

  /** The label the loop pushes for offset `i` as the source computes it:
      `d.setMonth(d.getMonth() - i)` on a fresh `new Date()`. */
  function LabelAsWritten(now: Date, names: seq<string>, i: int): string
    requires ValidDate(now) && |names| == 12
  {
    names[SetMonth(now, now.month - i).month]
  }

  /** The six labels as the source's loop builds them: offsets 5 down to 0. */
  method MonthsAsWritten(now: Date, names: seq<string>) returns (months: seq<string>)
    requires ValidDate(now) && |names| == 12
    ensures |months| == 6
    ensures forall k :: 0 <= k < 6 ==> months[k] == LabelAsWritten(now, names, 5 - k)
  {
    months := [];
    var i := 5;
    while i >= 0
      invariant -1 <= i <= 5
      invariant |months| == 5 - i
      invariant forall k :: 0 <= k < |months| ==> months[k] == LabelAsWritten(now, names, 5 - k)
    {
      var d := SetMonth(now, now.month - i);
      months := months + [names[d.month]];
      i := i - 1;
    }
  }

  /** On 31 October the as-written labels repeat July and October and skip June and
      September: 31 June and 31 September do not exist and roll into the next month. */
  lemma MonthsAsWrittenRollover(names: seq<string>)
    requires |names| == 12
    ensures LabelAsWritten(Date(2025, 9, 31), names, 5) == names[4]
    ensures LabelAsWritten(Date(2025, 9, 31), names, 4) == names[6]
    ensures LabelAsWritten(Date(2025, 9, 31), names, 3) == names[6]
    ensures LabelAsWritten(Date(2025, 9, 31), names, 2) == names[7]
    ensures LabelAsWritten(Date(2025, 9, 31), names, 1) == names[9]
    ensures LabelAsWritten(Date(2025, 9, 31), names, 0) == names[9]
  {
    assert DaysIn(2025, 5) == 30 && DaysIn(2025, 8) == 30;
  }

  /** Up to the 28th of a month the as-written labels are the intended ones. */
  lemma {:induction false} MonthsAsWrittenEarlyInMonth(now: Date, names: seq<string>, i: int)
    requires ValidDate(now) && |names| == 12 && now.day <= 28
    ensures LabelAsWritten(now, names, i) == names[(now.month - i) % 12]
  {
    assert now.day <= DaysIn(now.year + (now.month - i) / 12, (now.month - i) % 12);
  }

  /** The intended label for offset `i`: the month `i` months before the current one. */
  function MonthLabel(now: Date, names: seq<string>, i: int): (r: string)
    requires ValidDate(now) && |names| == 12
    ensures r == names[(now.month - i) % 12]
  {
    SetMonthFromFirst(FirstOfMonth(now), now.month - i);
    names[SetMonth(FirstOfMonth(now), now.month - i).month]
  }

  /** The six labels with the day set to the first before `setMonth`: the five previous
      months and the current one, oldest first. */
  method Months(now: Date, names: seq<string>) returns (months: seq<string>)
    requires ValidDate(now) && |names| == 12
    ensures |months| == 6
    ensures forall k :: 0 <= k < 6 ==> months[k] == names[(now.month - 5 + k) % 12]
    ensures months[5] == names[now.month]
  {
    months := [];
    var i := 5;
    while i >= 0
      invariant -1 <= i <= 5
      invariant |months| == 5 - i
      invariant forall k :: 0 <= k < |months| ==> months[k] == names[(now.month - 5 + k) % 12]
    {
      var d := SetMonth(FirstOfMonth(now), now.month - i);
      SetMonthFromFirst(FirstOfMonth(now), now.month - i);
      months := months + [names[d.month]];
      i := i - 1;
    }
  }

  /** With distinct month names the six labels are distinct. */
  lemma MonthLabelsDistinct(now: Date, names: seq<string>, months: seq<string>)
    requires ValidDate(now) && |names| == 12
    requires forall i, j :: 0 <= i < j < 12 ==> names[i] != names[j]
    requires |months| == 6 && forall k :: 0 <= k < 6 ==> months[k] == names[(now.month - 5 + k) % 12]
    ensures forall i, j :: 0 <= i < j < 6 ==> months[i] != months[j]
  {
    forall i, j | 0 <= i < j < 6 ensures months[i] != months[j] {
      ShiftChangesResidue(now.month - 5 + i, j - i);
      assert now.month - 5 + i + (j - i) == now.month - 5 + j;
    }
  }

  lemma ShiftChangesResidue(x: int, d: int)
    requires 0 < d < 12
    ensures (x + d) % 12 != x % 12
  {
    var q, r := x / 12, x % 12;
    assert x == 12 * q + r;
    if r + d < 12 {
      assert x + d == 12 * q + (r + d);
    } else {
      assert x + d == 12 * (q + 1) + (r + d - 12);
    }
  }

  /** A row of the per-month query: the short month name and its count. */
  datatype MonthRow = MonthRow(name: string, bookings: nat)

  /** `monthlyRows.find(r => r.name === m)`. */
  function FindMonth(rows: seq<MonthRow>, m: string): (r: Option<MonthRow>)
    ensures r.Some? <==> exists j :: 0 <= j < |rows| && rows[j].name == m
    ensures r.Some? ==>
      exists j :: 0 <= j < |rows| && rows[j] == r.value && rows[j].name == m
        && forall i :: 0 <= i < j ==> rows[i].name != m
  {
    if rows == [] then None
    else if rows[0].name == m then Some(rows[0])
    else
      var r := FindMonth(rows[1..], m);
      assert (exists j :: 0 <= j < |rows| && rows[j].name == m) ==>
        exists j :: 0 <= j < |rows[1..]| && rows[1..][j].name == m by {
        if exists j :: 0 <= j < |rows| && rows[j].name == m {
          var j :| 0 <= j < |rows| && rows[j].name == m;
          assert rows[1..][j - 1] == rows[j];
        }
      }
      assert r.Some? ==>
        exists j :: 0 <= j < |rows| && rows[j] == r.value && rows[j].name == m
          && forall i :: 0 <= i < j ==> rows[i].name != m by {
        if r.Some? {
          var j :| 0 <= j < |rows[1..]| && rows[1..][j] == r.value && rows[1..][j].name == m
            && forall i :: 0 <= i < j ==> rows[1..][i].name != m;
          assert rows[j + 1] == r.value;
          forall i | 0 <= i < j + 1 ensures rows[i].name != m {
            if i > 0 { assert rows[i] == rows[1..][i - 1]; }
          }
        }
      }
      r
  }

  /** `monthlyData`: one entry per label, in label order, with the count of the first row
      of that name, or 0. */
  function MonthlyData(months: seq<string>, rows: seq<MonthRow>): (r: seq<MonthRow>)
    ensures |r| == |months|
    ensures forall k :: 0 <= k < |r| ==> r[k].name == months[k]
    ensures forall k :: 0 <= k < |r| ==>
      ((forall j :: 0 <= j < |rows| ==> rows[j].name != months[k]) ==> r[k].bookings == 0)
    ensures forall k, j ::
      (0 <= k < |r| && 0 <= j < |rows| && rows[j].name == months[k]
       && (forall i :: 0 <= i < j ==> rows[i].name != months[k])) ==> r[k].bookings == rows[j].bookings
  {
    seq(|months|, k requires 0 <= k < |months| =>
      match FindMonth(rows, months[k])
      case Some(found) => MonthRow(months[k], found.bookings)
      case None => MonthRow(months[k], 0))
  }

  // Utilisation.

  /** The distinct resource types, in first-appearance order. */
  function Kinds(s: seq<Resource>): (r: seq<string>)
    ensures forall i, j :: 0 <= i < j < |r| ==> r[i] != r[j]
    ensures forall k :: k in r <==> exists x :: x in s && x.kind == k
  {
    if s == [] then []
    else
      var front := Kinds(s[..|s| - 1]);
      var last := s[|s| - 1];
      assert forall x :: x in s <==> x in s[..|s| - 1] || x == last by {
        assert s == s[..|s| - 1] + [last];
      }
      if last.kind in front then front else front + [last.kind]
  }

  /** `COUNT(b.id)` over `resources LEFT JOIN bookings` restricted to one type: every
      booking of every resource of that type; a resource without bookings adds nothing. */
  function JoinCount(resources: seq<Resource>, bookings: seq<Booking>, kind: string): nat
  {
    if resources == [] then 0
    else
      var x := resources[0];
      (if x.kind == kind then |Filter(bookings, (b: Booking) => b.resourceId == x.id)| else 0)
        + JoinCount(resources[1..], bookings, kind)
  }

  /** The count of a type is 0 exactly when no booking refers to a resource of that type. */
  lemma {:induction false} JoinCountZero(resources: seq<Resource>, bookings: seq<Booking>, kind: string)
    ensures JoinCount(resources, bookings, kind) == 0 <==>
      forall x, b :: x in resources && b in bookings && x.kind == kind ==> b.resourceId != x.id
  {
    if resources != [] {
      var x := resources[0];
      JoinCountZero(resources[1..], bookings, kind);
      assert forall y :: y in resources <==> y == x || y in resources[1..] by {
        assert resources == [x] + resources[1..];
      }
      if x.kind == kind {
        var f := Filter(bookings, (b: Booking) => b.resourceId == x.id);
        if f != [] { assert f[0] in f; }
        forall b | b in bookings && b.resourceId == x.id ensures f != [] {
          var k :| 0 <= k < |bookings| && bookings[k] == b;
          assert b in f;
        }
      }
    }
  }

  datatype Usage = Usage(name: string, value: nat)

  /** The utilisation query: one entry per type. */
  function Utilization(resources: seq<Resource>, bookings: seq<Booking>): (r: seq<Usage>)
    ensures forall i, j :: 0 <= i < j < |r| ==> r[i].name != r[j].name
    ensures forall u :: u in r ==> exists x :: x in resources && x.kind == u.name
    ensures forall x :: x in resources ==> exists u :: u in r && u.name == x.kind
    ensures forall u :: u in r ==> u.value == JoinCount(resources, bookings, u.name)
  {
    var kinds := Kinds(resources);
    var r := seq(|kinds|, i requires 0 <= i < |kinds| => Usage(kinds[i], JoinCount(resources, bookings, kinds[i])));
    UsageShape(resources, bookings, kinds, r);
    r
  }

  lemma UsageShape(resources: seq<Resource>, bookings: seq<Booking>, kinds: seq<string>, r: seq<Usage>)
    requires forall i, j :: 0 <= i < j < |kinds| ==> kinds[i] != kinds[j]
    requires forall k :: k in kinds <==> exists x :: x in resources && x.kind == k
    requires |r| == |kinds|
    requires forall i :: 0 <= i < |r| ==> r[i] == Usage(kinds[i], JoinCount(resources, bookings, kinds[i]))
    ensures forall i, j :: 0 <= i < j < |r| ==> r[i].name != r[j].name
    ensures forall u :: u in r ==> exists x :: x in resources && x.kind == u.name
    ensures forall x :: x in resources ==> exists u :: u in r && u.name == x.kind
    ensures forall u :: u in r ==> u.value == JoinCount(resources, bookings, u.name)
  {
    forall u | u in r ensures exists x :: x in resources && x.kind == u.name {
      var i :| 0 <= i < |r| && r[i] == u;
      assert kinds[i] in kinds;
    }
    forall x | x in resources ensures exists u :: u in r && u.name == x.kind {
      assert x.kind in kinds;
      var i :| 0 <= i < |kinds| && kinds[i] == x.kind;
      assert r[i] in r;
    }
  }

  /** A type whose resources have no bookings is reported with 0 rather than left out. */
  lemma UnbookedTypeReportsZero(resources: seq<Resource>, bookings: seq<Booking>, x: Resource)
    requires x in resources
    requires forall y, b :: y in resources && b in bookings && y.kind == x.kind ==> b.resourceId != y.id
    ensures Usage(x.kind, 0) in Utilization(resources, bookings)
  {
    var r := Utilization(resources, bookings);
    var u :| u in r && u.name == x.kind;
    JoinCountZero(resources, bookings, x.kind);
  }

  // The two statistics routes.

  datatype UserStats = UserStats(
    totalBookings: nat, upcoming: nat, completed: nat, recentActivity: seq<Booking>,
    monthlyData: seq<MonthRow>)

  /** GET `/user/stats`, with the month labels built from the first of the month (the
      corrected `Months`, not the loop as written). The per-month query result is the
      parameter `monthlyRows`; each label's count is that of the first row with the
      label, or 0. */
  method UserStatsOf(
    bookings: seq<Booking>, caller: Caller, today: int, now: Date, names: seq<string>,
    monthlyRows: seq<MonthRow>)
    returns (reply: Reply<UserStats>)
    requires ValidDate(now) && |names| == 12
    ensures reply.Json? && reply.status == 200
    ensures reply.value.totalBookings == CountMine(bookings, caller.id)
    ensures reply.value.upcoming == CountUpcoming(bookings, caller.id, today)
    ensures reply.value.completed == CountCompleted(bookings, caller.id, today)
    ensures reply.value.upcoming + reply.value.completed <= reply.value.totalBookings
    ensures reply.value.recentActivity == RecentActivity(bookings, caller.id)
    ensures |reply.value.monthlyData| == 6
    ensures forall k :: 0 <= k < 6 ==> reply.value.monthlyData[k].name == names[(now.month - 5 + k) % 12]
    ensures reply.value.monthlyData[5].name == names[now.month]
    ensures forall k :: 0 <= k < 6 ==>
      var m := reply.value.monthlyData[k];
      match FindMonth(monthlyRows, m.name)
      case None => m.bookings == 0
      case Some(row) => m.bookings == row.bookings
  {
    var months := Months(now, names);
    UpcomingPlusCompletedAtMostTotal(bookings, caller.id, today);
    var data := MonthlyData(months, monthlyRows);
    reply := Json(200, UserStats(
      CountMine(bookings, caller.id), CountUpcoming(bookings, caller.id, today),
      CountCompleted(bookings, caller.id, today), RecentActivity(bookings, caller.id), data));
  }

  datatype AdminStats = AdminStats(
    totalBookings: nat, activeResources: nat, totalUsers: nat,
    recentActivity: seq<Booking>, utilization: seq<Usage>)

  function CreatedDesc(b: Booking): seq<int>
  {
    [-b.createdAt]
  }

  /** The first `n` rows of a list sorted newest-created first are distinct rows of it, and
      every row left out was created no later than any row kept. */
  lemma {:induction false} TakeNewestCreated(sorted: seq<Booking>, n: nat)
    requires SortedBy(sorted, CreatedDesc)
    ensures multiset(Take(sorted, n)) <= multiset(sorted)
    ensures forall b, x :: b in multiset(sorted) - multiset(Take(sorted, n)) && x in Take(sorted, n) ==>
      b.createdAt <= x.createdAt
  {
    var t := Take(sorted, n);
    var rest := sorted[|t|..];
    assert sorted == t + rest;
    assert multiset(sorted) == multiset(t) + multiset(rest);
    assert multiset(sorted) - multiset(t) == multiset(rest);
    forall b, x | b in multiset(sorted) - multiset(t) && x in t ensures b.createdAt <= x.createdAt {
      assert b in rest;
      var j :| 0 <= j < |rest| && rest[j] == b;
      var i :| 0 <= i < |t| && t[i] == x;
      assert sorted[i] == x && sorted[|t| + j] == b;
      assert LexLe(CreatedDesc(sorted[i]), CreatedDesc(sorted[|t| + j]));
    }
  }

  /** A prefix of a list sorted newest-created first is itself in that order. */
  lemma TakeKeepsCreatedOrder(sorted: seq<Booking>, n: nat)
    requires SortedBy(sorted, CreatedDesc)
    ensures forall i, j :: 0 <= i < j < |Take(sorted, n)| ==> Take(sorted, n)[i].createdAt >= Take(sorted, n)[j].createdAt
  {
    var t := Take(sorted, n);
    forall i, j | 0 <= i < j < |t| ensures t[i].createdAt >= t[j].createdAt {
      assert t[i] == sorted[i] && t[j] == sorted[j];
      assert LexLe(CreatedDesc(sorted[i]), CreatedDesc(sorted[j]));
    }
  }

  /** Every row of a sub-multiset is a row of the whole. */
  lemma SubMultisetMembers(r: seq<Booking>, s: seq<Booking>)
    requires multiset(r) <= multiset(s)
    ensures forall b :: b in r ==> b in s
  {
    forall b | b in r ensures b in s {
      assert b in multiset(r);
    }
  }

  /** `ORDER BY created_at DESC LIMIT n`: at most `n` distinct rows of the table, newest
      created first, none of them created before a row left out. */
  function NewestCreated(s: seq<Booking>, n: nat): (r: seq<Booking>)
    ensures |r| == (if |s| < n then |s| else n)
    ensures forall b :: b in r ==> b in s
    ensures multiset(r) <= multiset(s)
    ensures forall i, j :: 0 <= i < j < |r| ==> r[i].createdAt >= r[j].createdAt
    ensures forall b, x :: b in multiset(s) - multiset(r) && x in r ==> b.createdAt <= x.createdAt
  {
    var sorted := SortBy(s, CreatedDesc);
    TakeNewestCreated(sorted, n);
    TakeKeepsCreatedOrder(sorted, n);
    SubMultisetMembers(Take(sorted, n), s);
    Take(sorted, n)
  }

  /** GET `/admin/stats`. The resource count is `COUNT(*)` over the whole table, so it
      includes deactivated resources; recent activity is the five latest-created
      bookings. */
  function AdminStatsOf(db: Db, caller: Caller): (r: Reply<AdminStats>)
    reads db
    ensures !IsAdmin(caller) <==> r == Denied
    ensures IsAdmin(caller) ==>
      && r.Json? && r.status == 200
      && r.value.totalBookings == |db.bookings|
      && r.value.activeResources == |db.resources|
      && r.value.totalUsers == |db.users|
      && |r.value.recentActivity| == (if |db.bookings| < 5 then |db.bookings| else 5)
      && (forall b :: b in r.value.recentActivity ==> b in db.bookings)
      && multiset(r.value.recentActivity) <= multiset(db.bookings)
      && (forall b, x :: b in multiset(db.bookings) - multiset(r.value.recentActivity) && x in r.value.recentActivity ==>
            b.createdAt <= x.createdAt)
      && (forall i, j :: 0 <= i < j < |r.value.recentActivity| ==>
            r.value.recentActivity[i].createdAt >= r.value.recentActivity[j].createdAt)
      && r.value.utilization == Utilization(db.resources, db.bookings)
  {
    if caller.role != "admin" then Denied
    else
      var recent := NewestCreated(db.bookings, 5);
      Json(200, AdminStats(|db.bookings|, |db.resources|, |db.users|, recent, Utilization(db.resources, db.bookings)))
  }
}
