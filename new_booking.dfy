/** The four-step booking wizard of the user pages: its step counter with the per-step
    checks, the attendee toggle, and the request the final step sends. */
module NewBooking {
  import opened Common

  const StepCount: int := 4

  /** Which request the submit button sends, and the body it sends. */
  datatype Target = Post(path: string) | Put(path: string)

  datatype Payload = Payload(
    resourceId: Option<int>, date: string, start: string, end: string, notes: string,
    attendeeIds: seq<int>)

  /** `!formData.resource` is false for a selected, non-zero id. */
  predicate ResourceChosen(resource: Option<int>)
  {
    resource.Some? && resource.value != 0
  }

  /** The step `nextStep` moves to: step 1 needs a date and both times, step 2 a
      resource; otherwise one step on, never past the last. */
  function StepAfterNext(step: int, date: string, start: string, end: string, resource: Option<int>): (r: int)
    requires 1 <= step <= StepCount
    ensures 1 <= r <= StepCount
    ensures step == 1 && (date == "" || start == "" || end == "") ==> r == step
    ensures step == 2 && !ResourceChosen(resource) ==> r == step
    ensures step == 3 ==> r == 4
    ensures step == StepCount ==> r == StepCount
    ensures r != step ==> r == step + 1
  {
    if step == 1 && (date == "" || start == "" || end == "") then step
    else if step == 2 && !ResourceChosen(resource) then step
    else if step + 1 < StepCount then step + 1 else StepCount
  }

  /** `Math.max(prev - 1, 1)`. */
  function StepAfterPrev(step: int): (r: int)
    requires 1 <= step <= StepCount
    ensures 1 <= r <= StepCount
    ensures step > 1 ==> r == step - 1
    ensures step == 1 ==> r == 1
  {
    if step - 1 > 1 then step - 1 else 1
  }

  /** Leaving step 1 with everything filled in, and step 2 with a resource, always
      succeeds: the wizard can reach the confirmation step. */
  lemma {:induction false} FilledFormReachesConfirm(date: string, start: string, end: string, resource: Option<int>)
    requires date != "" && start != "" && end != "" && ResourceChosen(resource)
    ensures StepAfterNext(StepAfterNext(StepAfterNext(1, date, start, end, resource), date, start, end, resource),
                          date, start, end, resource) == StepCount
  {
    assert StepAfterNext(1, date, start, end, resource) == 2;
    assert StepAfterNext(2, date, start, end, resource) == 3;
  }

  /** `toggleAttendee`: a selected id is removed, together with EVERY name equal to the
      user's name; an unselected one is appended with its name. */
  function Toggled(ids: seq<int>, names: seq<string>, id: int, name: string): (r: (seq<int>, seq<string>))
    ensures id in ids ==> r.0 == Filter(ids, (x: int) => x != id) && r.1 == Filter(names, (n: string) => n != name)
    ensures id !in ids ==> r.0 == ids + [id] && r.1 == names + [name]
    ensures id in r.0 <==> id !in ids
    ensures forall x :: x != id ==> (x in r.0 <==> x in ids)
  {
    if id in ids then
      var kept := Filter(ids, (x: int) => x != id);
      assert forall x :: x in kept <==> x in ids && x != id by {
        forall x ensures x in kept <==> x in ids && x != id {
          if x in ids { var k :| 0 <= k < |ids| && ids[k] == x; }
          if x in kept { var k :| 0 <= k < |kept| && kept[k] == x; }
        }
      }
      (kept, Filter(names, (n: string) => n != name))
    else (ids + [id], names + [name])
  }

  predicate DistinctIds(s: seq<int>)
  {
    forall i, j :: 0 <= i < j < |s| ==> s[i] != s[j]
  }

  /** The toggle never selects an id twice. */
  lemma ToggleKeepsDistinct(ids: seq<int>, names: seq<string>, id: int, name: string)
    requires DistinctIds(ids)
    ensures DistinctIds(Toggled(ids, names, id, name).0)
  {
    if id in ids {
      FilterKeepsDistinct(ids, (x: int) => x != id, (x: int) => x);
    }
  }

  /** Toggling a user who was not selected, twice, restores the selected ids. */
  lemma ToggleTwiceRestoresIds(ids: seq<int>, names: seq<string>, id: int, name: string)
    requires id !in ids
    ensures Toggled(Toggled(ids, names, id, name).0, Toggled(ids, names, id, name).1, id, name).0 == ids
  {
    var once := ids + [id];
    FilterAppend(ids, [id], (x: int) => x != id);
    FilterAll(ids, (x: int) => x != id);
    assert Filter([id], (x: int) => x != id) == [];
  }

  /** Deselecting one of two users who share a name drops both names from the display
      list, while the other user stays selected. */
  lemma ToggleOffDropsEqualNames(a: int, b: int, name: string)
    requires a != b
    ensures Toggled([a, b], [name, name], a, name) == ([b], [])
  {
    assert Filter([name], (n: string) => n != name) == [];
    assert Filter([b], (x: int) => x != a) == [b];
  }

  /** The request `handleSubmit` sends. */
  function Request(editingId: Option<nat>, resource: Option<int>, resourceName: string, date: string,
                   start: string, end: string, attendees: seq<int>): (r: (Target, Payload))
    ensures (editingId.Some? && editingId.value != 0) <==> r.0.Put?
    ensures r.0.Put? ==> r.0.path == "/bookings/" + NatToString(editingId.value)
    ensures r.0.Post? ==> r.0.path == "/bookings"
    ensures |r.1.notes| == 12 + |resourceName|
    ensures r.1.notes[..12] == "Booking for " && r.1.notes[12..] == resourceName
    ensures r.1.attendeeIds == attendees && r.1.resourceId == resource
    ensures r.1.date == date && r.1.start == start && r.1.end == end
  {
    var body := Payload(resource, date, start, end, "Booking for " + resourceName, attendees);
    if editingId.Some? && editingId.value != 0 then (Put("/bookings/" + NatToString(editingId.value)), body)
    else (Post("/bookings"), body)
  }

  /** The wizard's state: the step and the form. */
  class Wizard {
    var currentStep: int
    var editingId: Option<nat>
    var date: string
    var startTime: string
    var endTime: string
    var resource: Option<int>
    var resourceName: string
    var capacity: Option<int>
    var attendees: seq<int>
    var attendeeNames: seq<string>

    ghost predicate Valid()
      reads this
    {
      1 <= currentStep <= StepCount && DistinctIds(attendees)
    }

    constructor ()
      ensures Valid()
      ensures currentStep == 1 && editingId.None?
      ensures date == "" && startTime == "" && endTime == ""
      ensures resource.None? && resourceName == "" && capacity == Some(0)
      ensures attendees == [] && attendeeNames == []
    {
      currentStep := 1;
      editingId := None;
      date, startTime, endTime := "", "", "";
      resource, resourceName, capacity := None, "", Some(0);
      attendees, attendeeNames := [], [];
    }

    method NextStep()
      requires Valid()
      modifies this
      ensures Valid()
      ensures currentStep == StepAfterNext(old(currentStep), date, startTime, endTime, resource)
      ensures date == old(date) && startTime == old(startTime) && endTime == old(endTime)
      ensures resource == old(resource) && resourceName == old(resourceName) && capacity == old(capacity)
      ensures attendees == old(attendees) && attendeeNames == old(attendeeNames) && editingId == old(editingId)
    {
      if currentStep == 1 && (date == "" || startTime == "" || endTime == "") {
        return;
      }
      if currentStep == 2 && !ResourceChosen(resource) {
        return;
      }
      currentStep := if currentStep + 1 < StepCount then currentStep + 1 else StepCount;
    }

    method PrevStep()
      requires Valid()
      modifies this
      ensures Valid()
      ensures currentStep == StepAfterPrev(old(currentStep))
      ensures date == old(date) && startTime == old(startTime) && endTime == old(endTime)
      ensures resource == old(resource) && resourceName == old(resourceName) && capacity == old(capacity)
      ensures attendees == old(attendees) && attendeeNames == old(attendeeNames) && editingId == old(editingId)
    {
      currentStep := StepAfterPrev(currentStep);
    }

    /** The date picker (an empty string when cleared) and the two time pickers. */
    method SetDateAndTimes(d: string, start: string, end: string)
      requires Valid()
      modifies this
      ensures Valid()
      ensures date == d && startTime == start && endTime == end
      ensures currentStep == old(currentStep) && resource == old(resource) && resourceName == old(resourceName)
      ensures capacity == old(capacity) && attendees == old(attendees) && attendeeNames == old(attendeeNames)
      ensures editingId == old(editingId)
    {
      date, startTime, endTime := d, start, end;
    }

    /** Clicking a resource card. */
    method SelectResource(id: int, name: string, cap: Option<int>)
      requires Valid()
      modifies this
      ensures Valid()
      ensures resource == Some(id) && resourceName == name && capacity == cap
      ensures currentStep == old(currentStep) && date == old(date) && startTime == old(startTime)
      ensures endTime == old(endTime) && attendees == old(attendees) && attendeeNames == old(attendeeNames)
      ensures editingId == old(editingId)
    {
      resource, resourceName, capacity := Some(id), name, cap;
    }

    method ToggleAttendee(id: int, name: string)
      requires Valid()
      modifies this
      ensures Valid()
      ensures (attendees, attendeeNames) == Toggled(old(attendees), old(attendeeNames), id, name)
      ensures currentStep == old(currentStep) && date == old(date) && startTime == old(startTime)
      ensures endTime == old(endTime) && resource == old(resource) && resourceName == old(resourceName)
      ensures capacity == old(capacity) && editingId == old(editingId)
    {
      ToggleKeepsDistinct(attendees, attendeeNames, id, name);
      var t := Toggled(attendees, attendeeNames, id, name);
      attendees, attendeeNames := t.0, t.1;
    }

    function SubmitRequest(): (Target, Payload)
      reads this
    {
      Request(editingId, resource, resourceName, date, startTime, endTime, attendees)
    }
  }
}
