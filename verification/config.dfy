/** The fixed vocabulary of modules/config.py: weekdays, hourly slots, desk
    types, computer types and screen counts. */
module Config {
  import opened Text

  /** `WEEKDAYS`: the days a booking can be created for. */
  const Weekdays: seq<string> := ["Monday", "Tuesday", "Wednesday", "Thursday", "Friday"]

  /** `WEEKDAYS_ALL`: the days the weekly overview shows and the booking list
      is ordered by. */
  const WeekdaysAll: seq<string> :=
    ["Monday", "Tuesday", "Wednesday", "Thursday", "Friday", "Saturday", "Sunday"]

  /** The slot starting at hour `h`: `f"{h:02d}:00-{h+1:02d}:00"`. */
  function SlotString(h: nat): (r: string)
    ensures h < 99 ==> |r| == 11 && r[..2] == Pad2(h) && r[6..8] == Pad2(h + 1)
    ensures h < 99 ==> ParseNat(r[..2]) == h && ParseNat(r[6..8]) == h + 1
  {
    var r := Pad2(h) + ":00-" + Pad2(h + 1) + ":00";
    assert h < 99 ==> r[..2] == Pad2(h) && r[6..8] == Pad2(h + 1);
    r
  }

  /** `TIMESLOTS_BOOKING`: the bookable slots, hours 8 to 17. */
  const TimeslotsBooking: seq<string> := seq(10, i requires 0 <= i => SlotString(8 + i))

  /** `TIMESLOTS`: the slots of the weekly overview, hours 8 to 19. */
  const Timeslots: seq<string> := seq(12, i requires 0 <= i => SlotString(8 + i))

  /** `DESK_TYPES`. */
  const DeskTypes: seq<string> := ["schedule", "fullbooking", "projekt"]

  /** `COMPUTER_TYPES`. */
  const ComputerTypes: seq<string> := ["GPU", "CPU", "None"]

  /** `SCREEN_COUNTS`. */
  const ScreenCounts: seq<int> := [0, 1, 2]

  /** The booking weekdays are the first five of all weekdays. */
  lemma WeekdaysPrefix()
    ensures |WeekdaysAll| == 7 && |Weekdays| == 5
    ensures Weekdays == WeekdaysAll[..5]
    ensures forall i, j :: 0 <= i < j < |WeekdaysAll| ==> WeekdaysAll[i] != WeekdaysAll[j]
  {
  }

  /** A slot string spelled out character by character. */
  lemma SlotChars(h: nat)
    requires h < 99
    ensures SlotString(h) ==
      [DigitChar(h / 10), DigitChar(h % 10), ':', '0', '0', '-',
       DigitChar((h + 1) / 10), DigitChar((h + 1) % 10), ':', '0', '0']
  {
    Pad2Digits(h);
    Pad2Digits(h + 1);
  }

  /** Bookable slots: ten of them, hours 8..17; the display grid has twelve,
      hours 8..19, and begins with the bookable ones. */
  lemma TimeslotShape()
    ensures |TimeslotsBooking| == 10 && |Timeslots| == 12
    ensures forall i :: 0 <= i < 10 ==> TimeslotsBooking[i] == SlotString(8 + i)
    ensures forall i :: 0 <= i < 12 ==> Timeslots[i] == SlotString(8 + i)
    ensures TimeslotsBooking == Timeslots[..10]
  {
  }

  /** The first and last slots, written out. */
  lemma TimeslotEnds()
    ensures TimeslotsBooking[0] == "08:00-09:00"
    ensures TimeslotsBooking[9] == "17:00-18:00"
    ensures Timeslots[11] == "19:00-20:00"
  {
    TimeslotShape();
    FirstSlot();
    LastBookableSlot();
    LastSlot();
  }

  lemma FirstSlot()
    ensures SlotString(8) == "08:00-09:00"
  {
    SlotChars(8);
    assert DigitChar(0) == '0' && DigitChar(8) == '8' && DigitChar(9) == '9';
  }

  lemma LastBookableSlot()
    ensures SlotString(17) == "17:00-18:00"
  {
    SlotChars(17);
    assert DigitChar(1) == '1' && DigitChar(7) == '7' && DigitChar(8) == '8';
  }

  lemma LastSlot()
    ensures SlotString(19) == "19:00-20:00"
  {
    SlotChars(19);
    assert DigitChar(0) == '0' && DigitChar(1) == '1' && DigitChar(2) == '2' && DigitChar(9) == '9';
  }

  /** No slot string contains `_`, the separator of slot keys. */
  lemma SlotHasNoUnderscore(h: nat)
    requires h < 99
    ensures '_' !in SlotString(h)
  {
    SlotChars(h);
  }

  /** Slot strings of different hours differ. */
  lemma SlotStringInjective(h1: nat, h2: nat)
    requires h1 < 99 && h2 < 99
    requires SlotString(h1) == SlotString(h2)
    ensures h1 == h2
  {
    SlotChars(h1);
    SlotChars(h2);
    assert SlotString(h1)[0] == SlotString(h2)[0];
    assert SlotString(h1)[1] == SlotString(h2)[1];
  }

  /** Lexicographic order of slot strings is chronological order. */
  lemma SlotOrderIsHourOrder(h1: nat, h2: nat)
    requires h1 < 99 && h2 < 99
    ensures StrLt(SlotString(h1), SlotString(h2)) <==> h1 < h2
  {
    var a, b := SlotString(h1), SlotString(h2);
    SlotChars(h1);
    SlotChars(h2);
    if h1 == h2 {
      StrLtIrreflexive(a);
    } else if h1 / 10 != h2 / 10 {
      assert a[0] != b[0];
    } else {
      assert a[0] == b[0] && a[1..][0] != b[1..][0];
    }
  }

  /** Every slot of either list: no `_` inside, pairwise distinct, and listed
      in lexicographic (= chronological) order. */
  lemma TimeslotsWellFormed()
    ensures forall i :: 0 <= i < |Timeslots| ==> '_' !in Timeslots[i]
    ensures forall i, j :: 0 <= i < j < |Timeslots| ==> StrLt(Timeslots[i], Timeslots[j])
    ensures forall i, j :: 0 <= i < j < |Timeslots| ==> Timeslots[i] != Timeslots[j]
    ensures forall i :: 0 <= i < |TimeslotsBooking| ==> '_' !in TimeslotsBooking[i]
  {
    TimeslotShape();
    TimeslotsHaveNoUnderscore();
    TimeslotsAscending();
  }

  lemma TimeslotsHaveNoUnderscore()
    ensures forall i :: 0 <= i < |Timeslots| ==> '_' !in Timeslots[i]
  {
    forall i | 0 <= i < |Timeslots|
      ensures '_' !in Timeslots[i]
    {
      assert Timeslots[i] == SlotString(8 + i);
      SlotHasNoUnderscore(8 + i);
    }
  }

  lemma TimeslotsAscending()
    ensures forall i, j :: 0 <= i < j < |Timeslots| ==> StrLt(Timeslots[i], Timeslots[j])
    ensures forall i, j :: 0 <= i < j < |Timeslots| ==> Timeslots[i] != Timeslots[j]
  {
    forall i, j | 0 <= i < j < |Timeslots|
      ensures StrLt(Timeslots[i], Timeslots[j])
    {
      SlotPairAscending(i, j);
    }
  }

  lemma SlotPairAscending(i: nat, j: nat)
    requires i < j < |Timeslots|
    ensures StrLt(Timeslots[i], Timeslots[j])
  {
    assert Timeslots[i] == SlotString(8 + i) && Timeslots[j] == SlotString(8 + j);
    SlotOrderIsHourOrder(8 + i, 8 + j);
  }

  /** A stored screen count is its own index in the screen selector. */
  lemma ScreenCountsAreIndices()
    ensures |ScreenCounts| == 3
    ensures forall i :: 0 <= i < |ScreenCounts| ==> ScreenCounts[i] == i
  {
  }
}
