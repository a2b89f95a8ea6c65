/** The half-hour choices of the time picker: the loop that builds them, the `HH:MM:00`
    values and 12-hour labels, and the label shown for the current value. */
module TimeSelect {
  import opened Common

  datatype Slot = Slot(value: string, caption: string)

  /** `hour.toString().padStart(2, '0')`. */
  function Pad2(h: nat): (r: string)
    ensures |r| >= 2
    ensures h < 100 ==> |r| == 2
    ensures forall i :: 0 <= i < |r| ==> IsDigit(r[i])
  {
    var s := NatToString(h);
    if |s| < 2 then "0" + s else s
  }

  /** The clock hour of the label: 13 to 23 become 1 to 11; 12 stays 12. */
  function Hour12(h: nat): (r: nat)
    ensures h > 12 ==> r == h - 12
    ensures h <= 12 ==> r == h
  {
    if h > 12 then h - 12 else h
  }

  function AmPm(h: nat): (r: string)
    ensures r == "PM" <==> h >= 12
    ensures r == "AM" <==> h < 12
  {
    if h >= 12 then "PM" else "AM"
  }

  /** The slot for hour `h`, on the hour or at half past. */
  function MakeSlot(h: nat, half: bool): Slot
  {
    var mm := if half then "30" else "00";
    Slot(Pad2(h) + ":" + mm + ":00", NatToString(Hour12(h)) + ":" + mm + " " + AmPm(h))
  }

  /** The list the loop builds: two slots for each hour from 8 to 22. */
  function Slots(): (r: seq<Slot>)
    ensures |r| == 30
  {
    seq(30, k requires 0 <= k < 30 => MakeSlot(8 + k / 2, k % 2 == 1))
  }

  /** The generator loop: `for (let i = 8; i < 23; i++)` pushing `:00` then `:30`. */
  method TimeSlots() returns (slots: seq<Slot>)
    ensures slots == Slots()
  {
    slots := [];
    var i := 8;
    while i < 23
      invariant 8 <= i <= 23
      invariant |slots| == 2 * (i - 8)
      invariant forall k :: 0 <= k < |slots| ==> slots[k] == MakeSlot(8 + k / 2, k % 2 == 1)
    {
      slots := slots + [MakeSlot(i, false)];
      slots := slots + [MakeSlot(i, true)];
      i := i + 1;
    }
  }

  /** The time of day a `HH:MM:SS` value denotes, in seconds. */
  function Seconds(v: string): int
  {
    if |v| == 8 && IsDigit(v[0]) && IsDigit(v[1]) && IsDigit(v[3]) && IsDigit(v[4]) && IsDigit(v[6]) && IsDigit(v[7]) then
      DigitsValue(v[0..2]) * 3600 + DigitsValue(v[3..5]) * 60 + DigitsValue(v[6..8])
    else -1
  }

  lemma TwoDigitsValue(s: string)
    requires |s| == 2 && IsDigit(s[0]) && IsDigit(s[1])
    ensures DigitsValue(s) == (s[0] as int - '0' as int) * 10 + (s[1] as int - '0' as int)
  {
    var t := s[..|s| - 1];
    assert t == [s[0]];
    assert t[..|t| - 1] == [];
    assert DigitsValue(t) == s[0] as int - '0' as int;
  }

  lemma {:induction false} Pad2Value(h: nat)
    requires h < 100
    ensures DigitsValue(Pad2(h)) == h
  {
    var s := NatToString(h);
    var p := Pad2(h);
    TwoDigitsValue(p);
    if h < 10 {
      assert p == ['0', Digit(h)];
    } else {
      assert s == NatToString(h / 10) + [Digit(h % 10)];
      assert NatToString(h / 10) == [Digit(h / 10)];
      assert p == [Digit(h / 10), Digit(h % 10)];
    }
  }

  /** Slot `k` is 8:00 plus `k` half hours. */
  lemma SlotSeconds(k: nat)
    requires k < 30
    ensures Seconds(Slots()[k].value) == 8 * 3600 + k * 1800
  {
    var h := 8 + k / 2;
    var v := Slots()[k].value;
    var mm := if k % 2 == 1 then "30" else "00";
    assert v == Pad2(h) + ":" + mm + ":00";
    Pad2Value(h);
    assert v[0..2] == Pad2(h);
    assert v[3..5] == mm;
    assert v[6..8] == "00";
    TwoDigitsValue(mm);
    TwoDigitsValue("00");
  }

  /** The values run from 08:00:00 to 22:30:00, strictly increasing, so no two are equal. */
  lemma SlotsIncreasing()
    ensures Slots()[0].value == "08:00:00"
    ensures Slots()[29].value == "22:30:00"
    ensures forall i, j :: 0 <= i < j < 30 ==> Seconds(Slots()[i].value) < Seconds(Slots()[j].value)
    ensures forall i, j :: 0 <= i < j < 30 ==> Slots()[i].value != Slots()[j].value
  {
    assert Slots()[0] == MakeSlot(8, false);
    assert Slots()[29] == MakeSlot(22, true);
    assert Pad2(8) == "08" by { assert NatToString(8) == "8"; }
    assert Pad2(22) == "22" by {
      assert NatToString(22) == NatToString(2) + [Digit(2)];
    }
    SlotValuesDistinct();
  }

  lemma SlotValuesDistinct()
    ensures forall i, j :: 0 <= i < j < 30 ==> Seconds(Slots()[i].value) < Seconds(Slots()[j].value)
    ensures forall i, j :: 0 <= i < j < 30 ==> Slots()[i].value != Slots()[j].value
  {
    forall i, j | 0 <= i < j < 30 ensures Seconds(Slots()[i].value) < Seconds(Slots()[j].value) {
      SlotSeconds(i);
      SlotSeconds(j);
    }
  }

  /** Labels: noon is `12:00 PM`, 1 pm is `1:00 PM`, and the first slot is `8:00 AM`. */
  lemma SlotLabels()
    ensures Slots()[0].caption == "8:00 AM"
    ensures Slots()[8].caption == "12:00 PM"
    ensures Slots()[10].caption == "1:00 PM"
    ensures Slots()[29].caption == "10:30 PM"
  {
    assert Slots()[0] == MakeSlot(8, false);
    assert Slots()[8] == MakeSlot(12, false);
    assert Slots()[10] == MakeSlot(13, false);
    assert Slots()[29] == MakeSlot(22, true);
    assert NatToString(8) == "8" && NatToString(1) == "1";
    assert NatToString(12) == NatToString(1) + [Digit(2)];
    assert NatToString(10) == NatToString(1) + [Digit(0)];
  }

  /** `timeSlots.find(t => t.value === value)?.caption || "Select time"`. */
  function SelectedLabel(slots: seq<Slot>, value: string): (r: string)
    ensures (forall k :: 0 <= k < |slots| ==> slots[k].value != value) ==> r == "Select time"
    ensures forall k :: (0 <= k < |slots| && slots[k].value == value
      && (forall i :: 0 <= i < k ==> slots[i].value != value) && slots[k].caption != "") ==> r == slots[k].caption
  {
    if slots == [] then "Select time"
    else if slots[0].value == value then (if slots[0].caption != "" then slots[0].caption else "Select time")
    else
      var r := SelectedLabel(slots[1..], value);
      assert forall k :: 0 < k < |slots| ==> slots[k] == slots[1..][k - 1];
      r
  }

  /** Every generated value shows its own slot's label. */
  lemma SelectedLabelOfSlot(k: nat)
    requires k < 30
    ensures SelectedLabel(Slots(), Slots()[k].value) == Slots()[k].caption
  {
    SlotValuesDistinct();
    assert |Slots()[k].caption| > 0;
  }
}
