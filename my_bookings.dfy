/** The "my bookings" list: the caller's own bookings merged with the bookings they are
    invited to, deduplicated by booking id through an insertion-ordered map, each entry
    flagged with whether the caller owns it. */
module MyBookings {
  import opened Common
  import opened Sorting
  import opened Schema
  import opened BookingModel

  /** A row of the invited-bookings query: the booking and the caller's RSVP status
      (`my_rsvp_status`). */
  datatype Invitation = Invitation(booking: Booking, myRsvp: Rsvp)

  /** A merged entry: `{ ...b, is_owner }`; only invited rows carry an RSVP status. */
  datatype Entry = Entry(booking: Booking, myRsvp: Option<Rsvp>, isOwner: bool)

  // The invited-bookings query.

  /** The join of one booking with the caller's attendee rows. */
  function JoinOne(b: Booking, atts: seq<Attendee>, userId: nat): (r: seq<Invitation>)
    ensures forall x :: x in r <==> x.booking == b && Attendee(b.id, userId, x.myRsvp) in atts
  {
    if atts == [] then []
    else
      var here := if atts[0].bookingId == b.id && atts[0].userId == userId
        then [Invitation(b, atts[0].status)] else [];
      assert forall a :: a in atts <==> a == atts[0] || a in atts[1..];
      here + JoinOne(b, atts[1..], userId)
  }

  /** `bookings b JOIN booking_attendees ba ON b.id = ba.booking_id WHERE ba.user_id = ?`. */
  function Join(bs: seq<Booking>, atts: seq<Attendee>, userId: nat): (r: seq<Invitation>)
    ensures forall x :: x in r <==> x.booking in bs && Attendee(x.booking.id, userId, x.myRsvp) in atts
  {
    if bs == [] then []
    else
      assert forall b :: b in bs <==> b == bs[0] || b in bs[1..];
      JoinOne(bs[0], atts, userId) + Join(bs[1..], atts, userId)
  }

  function InvitationKey(x: Invitation): seq<int>
  {
    DateStartDesc(x.booking)
  }

  function BookingsOf(s: seq<Invitation>): (r: seq<Booking>)
    ensures |r| == |s| && forall i :: 0 <= i < |s| ==> r[i] == s[i].booking
  {
    seq(|s|, i requires 0 <= i < |s| => s[i].booking)
  }

  /** The invited bookings: exactly the bookings with an attendee row for the user, with
      that row's status, newest date first and latest start first. */
  function InvitedBookings(bs: seq<Booking>, atts: seq<Attendee>, userId: nat): (r: seq<Invitation>)
    ensures forall x :: x in r <==> x.booking in bs && Attendee(x.booking.id, userId, x.myRsvp) in atts
    ensures NewestFirst(BookingsOf(r))
  {
    var j := Join(bs, atts, userId);
    var r := SortBy(j, InvitationKey);
    assert forall x :: x in r <==> x in j by {
      forall x ensures x in r <==> x in j {
        assert x in r <==> x in multiset(r);
      }
    }
    SortedByDateStartDescIsNewestFirst(BookingsOf(r));
    r
  }

  // The insertion-ordered map the merge fills.

  /** A JavaScript `Map` from booking id to entry: the keys in insertion order and the
      value stored under each key. */
  datatype OrderedMap = OrderedMap(keys: seq<nat>, m: map<nat, Entry>)

  predicate Distinct(s: seq<nat>)
  {
    forall i, j :: 0 <= i < j < |s| ==> s[i] != s[j]
  }

  /** Every key is listed once, every listed key has a value, and each value is stored
      under its booking's id. */
  predicate WellFormed(o: OrderedMap)
  {
    && Distinct(o.keys)
    && (forall i :: 0 <= i < |o.keys| ==> o.keys[i] in o.m)
    && (forall k :: k in o.m ==> k in o.keys && o.m[k].booking.id == k)
  }

  const Empty := OrderedMap([], map[])

  /** `map.set(e.booking.id, e)`: a new key goes to the end; an existing key keeps its
      place and takes the new value. */
  function Put(o: OrderedMap, e: Entry): (r: OrderedMap)
    requires WellFormed(o)
    ensures WellFormed(r)
    ensures r.m == o.m[e.booking.id := e]
    ensures e.booking.id in o.m ==> r.keys == o.keys
    ensures e.booking.id !in o.m ==> r.keys == o.keys + [e.booking.id]
  {
    var k := e.booking.id;
    if k in o.m then OrderedMap(o.keys, o.m[k := e]) else OrderedMap(o.keys + [k], o.m[k := e])
  }

  /** `Array.from(map.values())`: the values in key insertion order. */
  function Values(o: OrderedMap): (r: seq<Entry>)
    requires WellFormed(o)
    ensures |r| == |o.keys|
    ensures forall i :: 0 <= i < |r| ==> r[i] == o.m[o.keys[i]]
  {
    seq(|o.keys|, i requires 0 <= i < |o.keys| && WellFormed(o) => o.m[o.keys[i]])
  }

  function OwnedEntry(b: Booking): Entry
  {
    Entry(b, None, true)
  }

  function InvitedEntry(x: Invitation): Entry
  {
    Entry(x.booking, Some(x.myRsvp), false)
  }

  /** The map after the first `forEach`: every owned booking is set, flagged as owned. */
  function AddOwned(o: OrderedMap, owned: seq<Booking>): (r: OrderedMap)
    requires WellFormed(o)
    ensures WellFormed(r)
  {
    if owned == [] then o
    else Put(AddOwned(o, owned[..|owned| - 1]), OwnedEntry(owned[|owned| - 1]))
  }

  /** The map after the second `forEach`: an invited booking is set, flagged as not
      owned, only when its id is not yet a key. */
  function AddInvited(o: OrderedMap, invited: seq<Invitation>): (r: OrderedMap)
    requires WellFormed(o)
    ensures WellFormed(r)
  {
    if invited == [] then o
    else
      var p := AddInvited(o, invited[..|invited| - 1]);
      var x := invited[|invited| - 1];
      if x.booking.id in p.m then p else Put(p, InvitedEntry(x))
  }

  function MergeState(owned: seq<Booking>, invited: seq<Invitation>): (r: OrderedMap)
    ensures WellFormed(r)
  {
    AddInvited(AddOwned(Empty, owned), invited)
  }

  /** The merged list the two loops and `Array.from` produce. */
  function MergeSpec(owned: seq<Booking>, invited: seq<Invitation>): seq<Entry>
  {
    Values(MergeState(owned, invited))
  }

  /** The merge as the script runs it: two loops filling the map, then its values. */
  method Merge(owned: seq<Booking>, invited: seq<Invitation>) returns (result: seq<Entry>)
    ensures result == MergeSpec(owned, invited)
  {
    var keys: seq<nat> := [];
    var m: map<nat, Entry> := map[];
    var i := 0;
    while i < |owned|
      invariant 0 <= i <= |owned|
      invariant OrderedMap(keys, m) == AddOwned(Empty, owned[..i])
    {
      var b := owned[i];
      AddOwnedStep(owned, i);
      if b.id !in m {
        keys := keys + [b.id];
      }
      m := m[b.id := OwnedEntry(b)];
      i := i + 1;
    }
    assert owned[..|owned|] == owned;
    ghost var afterOwned := OrderedMap(keys, m);
    var j := 0;
    while j < |invited|
      invariant 0 <= j <= |invited|
      invariant OrderedMap(keys, m) == AddInvited(afterOwned, invited[..j])
    {
      var x := invited[j];
      AddInvitedStep(afterOwned, invited, j);
      if x.booking.id !in m {
        keys := keys + [x.booking.id];
        m := m[x.booking.id := InvitedEntry(x)];
      }
      j := j + 1;
    }
    assert invited[..|invited|] == invited;
    result := Values(OrderedMap(keys, m));
  }

  lemma AddOwnedStep(owned: seq<Booking>, i: nat)
    requires i < |owned|
    ensures AddOwned(Empty, owned[..i + 1]) == Put(AddOwned(Empty, owned[..i]), OwnedEntry(owned[i]))
  {
    assert owned[..i + 1][..i] == owned[..i];
  }

  lemma AddInvitedStep(o: OrderedMap, invited: seq<Invitation>, j: nat)
    requires WellFormed(o) && j < |invited|
    ensures var p := AddInvited(o, invited[..j]);
      AddInvited(o, invited[..j + 1]) ==
        if invited[j].booking.id in p.m then p else Put(p, InvitedEntry(invited[j]))
  {
    assert invited[..j + 1][..j] == invited[..j];
  }

  /** The script's flow for one user: own bookings, invited bookings, then the merge. */
  method MyBookingsOf(db: Db, userId: nat) returns (result: seq<Entry>)
    ensures result == MergeSpec(FindByUserId(db.bookings, userId), InvitedBookings(db.bookings, db.attendees, userId))
  {
    var owned := FindByUserId(db.bookings, userId);
    var invited := InvitedBookings(db.bookings, db.attendees, userId);
    result := Merge(owned, invited);
  }

  // Properties of the merge.

  function OwnedIds(s: seq<Booking>): (r: seq<nat>)
    ensures |r| == |s| && forall i :: 0 <= i < |s| ==> r[i] == s[i].id
  {
    seq(|s|, i requires 0 <= i < |s| => s[i].id)
  }

  function InvitedIds(s: seq<Invitation>): (r: seq<nat>)
    ensures |r| == |s| && forall i :: 0 <= i < |s| ==> r[i] == s[i].booking.id
  {
    seq(|s|, i requires 0 <= i < |s| => s[i].booking.id)
  }

  function EntryIds(s: seq<Entry>): (r: seq<nat>)
    ensures |r| == |s| && forall i :: 0 <= i < |s| ==> r[i] == s[i].booking.id
  {
    seq(|s|, i requires 0 <= i < |s| => s[i].booking.id)
  }

  /** Each id at its first occurrence, in order of first occurrence. */
  function Dedup(s: seq<nat>): (r: seq<nat>)
    ensures Distinct(r)
    ensures forall x :: x in r <==> x in s
  {
    if s == [] then []
    else
      var d := Dedup(s[..|s| - 1]);
      assert forall x :: x in s <==> x in s[..|s| - 1] || x == s[|s| - 1] by {
        assert s == s[..|s| - 1] + [s[|s| - 1]];
      }
      if s[|s| - 1] in d then d else d + [s[|s| - 1]]
  }

  lemma DedupSnoc(t: seq<nat>, k: nat)
    ensures Dedup(t + [k]) == if k in Dedup(t) then Dedup(t) else Dedup(t) + [k]
  {
    assert (t + [k])[..|t|] == t;
  }

  lemma OwnedIdsSnoc(prior: seq<nat>, owned: seq<Booking>)
    requires owned != []
    ensures prior + OwnedIds(owned) == (prior + OwnedIds(owned[..|owned| - 1])) + [owned[|owned| - 1].id]
  {
    assert OwnedIds(owned) == OwnedIds(owned[..|owned| - 1]) + [owned[|owned| - 1].id];
  }

  lemma InvitedIdsSnoc(prior: seq<nat>, invited: seq<Invitation>)
    requires invited != []
    ensures prior + InvitedIds(invited) ==
      (prior + InvitedIds(invited[..|invited| - 1])) + [invited[|invited| - 1].booking.id]
  {
    assert InvitedIds(invited) == InvitedIds(invited[..|invited| - 1]) + [invited[|invited| - 1].booking.id];
  }

  /** Filling the map keeps its keys in order of first insertion. */
  lemma {:induction false} AddOwnedKeys(o: OrderedMap, prior: seq<nat>, owned: seq<Booking>)
    requires WellFormed(o) && o.keys == Dedup(prior)
    ensures AddOwned(o, owned).keys == Dedup(prior + OwnedIds(owned))
  {
    if owned == [] {
      assert prior + OwnedIds(owned) == prior;
    } else {
      var front := owned[..|owned| - 1];
      var k := owned[|owned| - 1].id;
      AddOwnedKeys(o, prior, front);
      var p := AddOwned(o, front);
      OwnedIdsSnoc(prior, owned);
      DedupSnoc(prior + OwnedIds(front), k);
      assert k in p.m <==> k in p.keys;
    }
  }

  lemma {:induction false} AddInvitedKeys(o: OrderedMap, prior: seq<nat>, invited: seq<Invitation>)
    requires WellFormed(o) && o.keys == Dedup(prior)
    ensures AddInvited(o, invited).keys == Dedup(prior + InvitedIds(invited))
  {
    if invited == [] {
      assert prior + InvitedIds(invited) == prior;
    } else {
      var front := invited[..|invited| - 1];
      var k := invited[|invited| - 1].booking.id;
      AddInvitedKeys(o, prior, front);
      var p := AddInvited(o, front);
      InvitedIdsSnoc(prior, invited);
      DedupSnoc(prior + InvitedIds(front), k);
      assert k in p.m <==> k in p.keys;
    }
  }

  /** The merged ids are the owned ids followed by the invited ids, each kept at its first
      occurrence: owned bookings in their order, then the remaining invited ones in
      theirs. Hence no id repeats and the id set is the union of both id sets. */
  lemma MergeOrder(owned: seq<Booking>, invited: seq<Invitation>)
    ensures EntryIds(MergeSpec(owned, invited)) == Dedup(OwnedIds(owned) + InvitedIds(invited))
    ensures Distinct(EntryIds(MergeSpec(owned, invited)))
    ensures forall k :: k in EntryIds(MergeSpec(owned, invited)) <==> k in OwnedIds(owned) || k in InvitedIds(invited)
  {
    assert Empty.keys == Dedup([]);
    AddOwnedKeys(Empty, [], owned);
    assert [] + OwnedIds(owned) == OwnedIds(owned);
    AddInvitedKeys(AddOwned(Empty, owned), OwnedIds(owned), invited);
    var r := MergeSpec(owned, invited);
    assert EntryIds(r) == MergeState(owned, invited).keys;
  }

  /** After the first loop every value is an owned booking flagged as owned, under
      exactly the owned ids. */
  lemma {:induction false} AddOwnedValues(owned: seq<Booking>)
    ensures forall k :: k in AddOwned(Empty, owned).m <==> k in OwnedIds(owned)
    ensures forall k :: k in AddOwned(Empty, owned).m ==>
      AddOwned(Empty, owned).m[k].isOwner && AddOwned(Empty, owned).m[k].myRsvp.None?
      && AddOwned(Empty, owned).m[k].booking in owned
  {
    if owned != [] {
      var front := owned[..|owned| - 1];
      var last := owned[|owned| - 1];
      AddOwnedValues(front);
      var p := AddOwned(Empty, front);
      var r := AddOwned(Empty, owned);
      assert r.m == p.m[last.id := OwnedEntry(last)];
      FrontOwned(owned);
      assert OwnedIds(owned) == OwnedIds(front) + [last.id];
      forall k ensures k in r.m <==> k in OwnedIds(owned) {
        assert k in OwnedIds(owned) <==> k in OwnedIds(front) || k == last.id;
      }
      forall k | k in r.m ensures r.m[k].isOwner && r.m[k].myRsvp.None? && r.m[k].booking in owned {
        if k != last.id {
          assert r.m[k] == p.m[k];
        }
      }
    }
  }

  lemma FrontOwned(owned: seq<Booking>)
    requires owned != []
    ensures owned[|owned| - 1] in owned
    ensures forall b :: b in owned[..|owned| - 1] ==> b in owned
  {
    var front := owned[..|owned| - 1];
    forall b | b in front ensures b in owned {
      var k :| 0 <= k < |front| && front[k] == b;
      assert owned[k] == b;
    }
  }

  /** The second loop never overwrites a key and adds only invited bookings, flagged
      as not owned. */
  lemma {:induction false} AddInvitedValues(o: OrderedMap, invited: seq<Invitation>)
    requires WellFormed(o)
    ensures forall k :: k in o.m ==> k in AddInvited(o, invited).m && AddInvited(o, invited).m[k] == o.m[k]
    ensures forall k :: k in AddInvited(o, invited).m && k !in o.m ==>
      exists x :: x in invited && AddInvited(o, invited).m[k] == InvitedEntry(x)
    ensures forall k :: k in AddInvited(o, invited).m <==> k in o.m || k in InvitedIds(invited)
  {
    if invited != [] {
      var front := invited[..|invited| - 1];
      var x := invited[|invited| - 1];
      AddInvitedValues(o, front);
      var p := AddInvited(o, front);
      var r := AddInvited(o, invited);
      assert r.m == if x.booking.id in p.m then p.m else p.m[x.booking.id := InvitedEntry(x)];
      FrontInvited(invited);
      InvitedIdsSnocMembers(invited);
      forall k | k in r.m && k !in o.m ensures exists y :: y in invited && r.m[k] == InvitedEntry(y) {
        if k in p.m {
          var y :| y in front && p.m[k] == InvitedEntry(y);
          assert y in invited;
        } else {
          assert r.m[k] == InvitedEntry(x) && x in invited;
        }
      }
    }
  }

  lemma FrontInvited(invited: seq<Invitation>)
    requires invited != []
    ensures invited[|invited| - 1] in invited
    ensures forall y :: y in invited[..|invited| - 1] ==> y in invited
  {
    var front := invited[..|invited| - 1];
    forall y | y in front ensures y in invited {
      var k :| 0 <= k < |front| && front[k] == y;
      assert invited[k] == y;
    }
  }

  lemma InvitedIdsSnocMembers(invited: seq<Invitation>)
    requires invited != []
    ensures forall k :: k in InvitedIds(invited) <==>
      k in InvitedIds(invited[..|invited| - 1]) || k == invited[|invited| - 1].booking.id
  {
    assert InvitedIds(invited) == InvitedIds(invited[..|invited| - 1]) + [invited[|invited| - 1].booking.id];
  }

  /** Each merged entry is flagged as owned exactly when its id is an owned id; an owned
      entry is an owned booking without RSVP, and any other entry is an invited booking
      with its RSVP status. So when a booking is both owned and invited, the owned row
      wins. */
  lemma MergeFlags(owned: seq<Booking>, invited: seq<Invitation>)
    ensures forall e :: e in MergeSpec(owned, invited) ==>
      && (e.isOwner <==> e.booking.id in OwnedIds(owned))
      && (e.isOwner ==> e.myRsvp.None? && e.booking in owned)
      && (!e.isOwner ==> exists x :: x in invited && e == InvitedEntry(x))
  {
    var o := AddOwned(Empty, owned);
    AddOwnedValues(owned);
    AddInvitedValues(o, invited);
    var st := MergeState(owned, invited);
    forall e | e in MergeSpec(owned, invited)
      ensures (e.isOwner <==> e.booking.id in OwnedIds(owned))
      ensures e.isOwner ==> e.myRsvp.None? && e.booking in owned
      ensures !e.isOwner ==> exists x :: x in invited && e == InvitedEntry(x)
    {
      var i :| 0 <= i < |MergeSpec(owned, invited)| && MergeSpec(owned, invited)[i] == e;
      var k := st.keys[i];
      assert e == st.m[k] && e.booking.id == k;
    }
  }

  /** With the primary key making owned ids distinct, every owned booking appears in the
      merged list as itself, flagged as owned. */
  lemma {:induction false} OwnedAllPresent(owned: seq<Booking>, invited: seq<Invitation>)
    requires Distinct(OwnedIds(owned))
    ensures forall b :: b in owned ==> OwnedEntry(b) in MergeSpec(owned, invited)
  {
    OwnedStored(owned);
    var o := AddOwned(Empty, owned);
    AddInvitedValues(o, invited);
    var st := MergeState(owned, invited);
    forall b | b in owned ensures OwnedEntry(b) in MergeSpec(owned, invited) {
      assert st.m[b.id] == OwnedEntry(b);
      var i :| 0 <= i < |st.keys| && st.keys[i] == b.id;
      assert MergeSpec(owned, invited)[i] == OwnedEntry(b);
    }
  }

  lemma {:induction false} OwnedStored(owned: seq<Booking>)
    requires Distinct(OwnedIds(owned))
    ensures forall b :: b in owned ==> b.id in AddOwned(Empty, owned).m && AddOwned(Empty, owned).m[b.id] == OwnedEntry(b)
  {
    if owned != [] {
      var front := owned[..|owned| - 1];
      var last := owned[|owned| - 1];
      assert Distinct(OwnedIds(front)) by {
        assert forall i :: 0 <= i < |front| ==> OwnedIds(front)[i] == OwnedIds(owned)[i];
      }
      OwnedStored(front);
      forall b | b in owned ensures b.id in AddOwned(Empty, owned).m && AddOwned(Empty, owned).m[b.id] == OwnedEntry(b) {
        if b != last {
          var k :| 0 <= k < |owned| && owned[k] == b;
          assert k < |owned| - 1;
          assert b in front;
          assert OwnedIds(owned)[k] != OwnedIds(owned)[|owned| - 1];
        }
      }
    }
  }

  /** With distinct invited ids as well, an invited booking whose id is not owned appears
      as itself, flagged as not owned. */
  lemma {:induction false} InvitedPresentUnlessOwned(owned: seq<Booking>, invited: seq<Invitation>)
    requires Distinct(InvitedIds(invited))
    ensures forall x :: x in invited && x.booking.id !in OwnedIds(owned) ==>
      InvitedEntry(x) in MergeSpec(owned, invited)
  {
    var o := AddOwned(Empty, owned);
    AddOwnedValues(owned);
    InvitedStored(o, invited);
    var st := MergeState(owned, invited);
    forall x | x in invited && x.booking.id !in OwnedIds(owned)
      ensures InvitedEntry(x) in MergeSpec(owned, invited)
    {
      assert st.m[x.booking.id] == InvitedEntry(x);
      var i :| 0 <= i < |st.keys| && st.keys[i] == x.booking.id;
      assert MergeSpec(owned, invited)[i] == InvitedEntry(x);
    }
  }

  lemma {:induction false} InvitedStored(o: OrderedMap, invited: seq<Invitation>)
    requires WellFormed(o) && Distinct(InvitedIds(invited))
    ensures forall x :: x in invited && x.booking.id !in o.m ==>
      x.booking.id in AddInvited(o, invited).m && AddInvited(o, invited).m[x.booking.id] == InvitedEntry(x)
  {
    if invited != [] {
      var front := invited[..|invited| - 1];
      var last := invited[|invited| - 1];
      assert Distinct(InvitedIds(front)) by {
        assert forall i :: 0 <= i < |front| ==> InvitedIds(front)[i] == InvitedIds(invited)[i];
      }
      InvitedStored(o, front);
      AddInvitedValues(o, front);
      forall x | x in invited && x.booking.id !in o.m
        ensures x.booking.id in AddInvited(o, invited).m && AddInvited(o, invited).m[x.booking.id] == InvitedEntry(x)
      {
        var k :| 0 <= k < |invited| && invited[k] == x;
        if k < |invited| - 1 {
          assert x in front;
          assert InvitedIds(invited)[k] != InvitedIds(invited)[|invited| - 1];
        } else {
          assert x == last;
          assert last.booking.id !in InvitedIds(front) by {
            forall j | 0 <= j < |front| ensures InvitedIds(front)[j] != last.booking.id {
              assert InvitedIds(invited)[j] != InvitedIds(invited)[|invited| - 1];
            }
          }
        }
      }
    }
  }
}
