/** modules/desk_planning.py, as the data effect of each of its branches:
    the booked-slot set, the `"{tag}_{zeitslot}"` selection key, toggling a
    slot in the session-wide selection, saving the selection as bookings,
    deleting a booking, ordering the booking list, the weekly grid, and the
    full-booking and project forms. */
module DeskPlanning {
  import opened Outcomes
  import opened Text
  import opened Config
  import opened DeskData
  import opened Registry
  import opened Utils

  // ---------------------------------------------------------------------
  // Slot keys
  // ---------------------------------------------------------------------

  /** `f"{tag}_{zeitslot}"`: how a selected slot is remembered. */
  function SlotKey(tag: string, zeitslot: string): (k: string)
    ensures |k| == |tag| + 1 + |zeitslot| && k[|tag|] == '_'
    ensures k[..|tag|] == tag && k[|tag| + 1..] == zeitslot
  {
    tag + "_" + zeitslot
  }

  /** `tag, zeitslot = slot_key.rsplit('_', 1)`; `None` where the unpacking
      would raise because the key has no `_`. */
  function SplitSlotKey(key: string): (r: Option<(string, string)>)
    ensures r.None? <==> '_' !in key
    ensures r.Some? ==> '_' !in r.value.1
  {
    RSplitOnce(key, '_')
  }

  /** Decoding a key gives back its day and slot for any day at all, as long
      as the slot has no `_`. */
  lemma SplitSlotKeyRoundTrip(tag: string, zeitslot: string)
    requires '_' !in zeitslot
    ensures SplitSlotKey(SlotKey(tag, zeitslot)) == Some((tag, zeitslot))
  {
    RSplitJoin(tag, '_', zeitslot);
    assert SlotKey(tag, zeitslot) == tag + ['_'] + zeitslot;
  }

  /** In particular for every bookable slot of the grid. */
  lemma BookableKeyRoundTrip(tag: string, i: nat)
    requires i < |TimeslotsBooking|
    ensures SplitSlotKey(SlotKey(tag, TimeslotsBooking[i])) == Some((tag, TimeslotsBooking[i]))
  {
    TimeslotsWellFormed();
    SplitSlotKeyRoundTrip(tag, TimeslotsBooking[i]);
  }

  /** A key that decodes is the encoding of what it decodes to. */
  lemma SlotKeyRejoin(key: string)
    requires SplitSlotKey(key).Some?
    ensures var (tag, zeitslot) := SplitSlotKey(key).value;
      SlotKey(tag, zeitslot) == key && '_' !in zeitslot
  {
    RSplitRejoin(key, '_');
    var (tag, zeitslot) := SplitSlotKey(key).value;
    assert SlotKey(tag, zeitslot) == tag + ['_'] + zeitslot;
  }

  /** Different (day, slot) pairs give different keys. */
  lemma SlotKeyInjective(t1: string, z1: string, t2: string, z2: string)
    requires '_' !in z1 && '_' !in z2
    requires SlotKey(t1, z1) == SlotKey(t2, z2)
    ensures t1 == t2 && z1 == z2
  {
    SplitSlotKeyRoundTrip(t1, z1);
    SplitSlotKeyRoundTrip(t2, z2);
  }

  // ---------------------------------------------------------------------
  // Booked slots and the selection grid
  // ---------------------------------------------------------------------

  /** `gebuchte_slots` for day `tag`: the slots of the bookings on that day
      (a booking without `zeitslot` adds `None`, which equals no slot). */
  function BookedSlots(bs: Bookings, tag: string): (r: set<string>)
    ensures forall z :: z in r <==> exists id :: id in bs && Holds(bs[id], tag, z)
  {
    var r := set id | id in bs && bs[id].tag == Some(tag) && bs[id].zeitslot.Some? :: bs[id].zeitslot.value;
    assert forall z :: (exists id :: id in bs && Holds(bs[id], tag, z)) ==> z in r by {
      forall z, id | id in bs && Holds(bs[id], tag, z)
        ensures z in r
      {
        assert bs[id].zeitslot.value == z;
      }
    }
    r
  }

  /** The effect of clicking the button of (`tag`, `zeitslot`): a booked slot's
      button is disabled, a selected one is deselected, a free one selected. */
  function ClickSlot(selection: set<string>, bs: Bookings, tag: string, zeitslot: string): (r: set<string>)
    ensures zeitslot in BookedSlots(bs, tag) ==> r == selection
    ensures zeitslot !in BookedSlots(bs, tag) && SlotKey(tag, zeitslot) in selection ==>
      r == selection - {SlotKey(tag, zeitslot)}
    ensures zeitslot !in BookedSlots(bs, tag) && SlotKey(tag, zeitslot) !in selection ==>
      r == selection + {SlotKey(tag, zeitslot)}
  {
    var key := SlotKey(tag, zeitslot);
    if zeitslot in BookedSlots(bs, tag) then selection
    else if key in selection then selection - {key}
    else selection + {key}
  }

  /** Every selected key names a (day, slot) pair no booking of `bs` holds. */
  predicate FreeKey(bs: Bookings, key: string) {
    match SplitSlotKey(key)
    case None => false
    case Some((tag, zeitslot)) => zeitslot !in BookedSlots(bs, tag)
  }

  predicate FreeSelection(bs: Bookings, selection: set<string>) {
    forall key :: key in selection ==> FreeKey(bs, key)
  }

  /** Clicking on the grid of a desk keeps a selection free for that desk:
      the disabled buttons are the only guard against booking a taken slot. */
  lemma ClickKeepsSelectionFree(selection: set<string>, bs: Bookings, tag: string, zeitslot: string)
    requires FreeSelection(bs, selection)
    requires '_' !in zeitslot
    ensures FreeSelection(bs, ClickSlot(selection, bs, tag, zeitslot))
  {
    SplitSlotKeyRoundTrip(tag, zeitslot);
  }

  // ---------------------------------------------------------------------
  // Saving the selection
  // ---------------------------------------------------------------------

  /** One `datetime.now()` reading per created booking: its id suffix
      (`%Y%m%d%H%M%S%f`) and its creation time (`%Y-%m-%d %H:%M:%S`). */
  datatype Stamp = Stamp(idSuffix: string, createdAt: string)

  /** The booking form when "Save Bookings" is pressed; `rechnerModus` is the
      usage chosen in the selector, which only a desk with a computer shows. */
  datatype BookingForm = BookingForm(person: string, rechnerModus: string, notizen: string)

  /** Why a save creates nothing: the two checks of the save branch, and a
      key without `_` on which the unpacking of `rsplit` raises. */
  datatype SaveError = EmptyName | EmptySelection | MalformedKey(key: string)

  /** The usages the form offers on a desk with a computer. */
  const ComputerModes: seq<string> :=
    ["Screens Only", "Computer Active (Shutdownable)", "Training Mode (Not Shutdownable)"]

  /** The usage recorded for a booking on a desk without a computer. */
  const NoComputerMode: string := "No Computer"

  /** `rechner_modus if rechner_vorhanden else "No Computer"`. */
  function ModeFor(hasComputer: bool, chosen: string, noComputer: string): string {
    if hasComputer then chosen else noComputer
  }

  /** The id of the booking created for `key`: `f"{tag}_{zeitslot}_{suffix}"`,
      which is the key itself followed by `_` and the suffix. */
  function NewId(key: string, stamp: Stamp): string {
    key + "_" + stamp.idSuffix
  }

  /** `b` is the booking the save creates for `key` at `stamp`: the decoded
      day and slot, and the form's person, notes and mode. */
  predicate CreatedFrom(b: Booking, key: string, stamp: Stamp, form: BookingForm, mode: string) {
    && b.tag.Some? && b.zeitslot.Some?
    && SplitSlotKey(key) == Some((b.tag.value, b.zeitslot.value))
    && b.person == Some(form.person)
    && b.notizen == Some(form.notizen)
    && b.rechnerModus == Some(mode)
    && b.erstelltAm == Some(stamp.createdAt)
  }

  /** Position `i` is the last one whose key and stamp produce its id, so its
      booking is the one left in the map. */
  predicate LastWriter(keys: seq<string>, stamps: seq<Stamp>, i: nat)
    requires |stamps| == |keys| && i < |keys|
  {
    forall j :: i < j < |keys| ==> NewId(keys[j], stamps[j]) != NewId(keys[i], stamps[i])
  }

  /** `order` lists every element of `selection` once: the order in which the
      loop visits the set. */
  predicate Enumerates(order: seq<string>, selection: set<string>) {
    Distinct(order) && selection == set k | k in order
  }

  /** The loop of the save branch: one booking per key, in the given order,
      written into `bs` under its new id; the first key that does not decode
      stops it. */
  function CreateBookings(bs: Bookings, keys: seq<string>, stamps: seq<Stamp>,
                          form: BookingForm, mode: string): (r: Result<Bookings, SaveError>)
    requires |stamps| == |keys|
    ensures r.Success? <==> forall i :: 0 <= i < |keys| ==> SplitSlotKey(keys[i]).Some?
    ensures r.Failure? ==> exists i :: 0 <= i < |keys| && SplitSlotKey(keys[i]).None? && r.error == MalformedKey(keys[i])
    decreases |keys|
  {
    if |keys| == 0 then Success(bs)
    else
      match SplitSlotKey(keys[0])
      case None => Failure(MalformedKey(keys[0]))
      case Some((tag, zeitslot)) =>
        var id := tag + "_" + zeitslot + "_" + stamps[0].idSuffix;
        var b := Booking(Some(form.person), Some(tag), Some(zeitslot), Some(mode),
                         Some(form.notizen), Some(stamps[0].createdAt));
        var r := CreateBookings(bs[id := b], keys[1..], stamps[1..], form, mode);
        assert forall i :: 1 <= i < |keys| ==> keys[i] == keys[1..][i - 1];
        r
  }

  /** The first step of the loop, for the lemmas below. */
  lemma CreateBookingsStep(bs: Bookings, keys: seq<string>, stamps: seq<Stamp>, form: BookingForm, mode: string)
    requires |stamps| == |keys| > 0
    requires SplitSlotKey(keys[0]).Some?
    ensures var (tag, zeitslot) := SplitSlotKey(keys[0]).value;
      var b := Booking(Some(form.person), Some(tag), Some(zeitslot), Some(mode),
                       Some(form.notizen), Some(stamps[0].createdAt));
      && CreatedFrom(b, keys[0], stamps[0], form, mode)
      && CreateBookings(bs, keys, stamps, form, mode)
         == CreateBookings(bs[NewId(keys[0], stamps[0]) := b], keys[1..], stamps[1..], form, mode)
  {
    SlotKeyRejoin(keys[0]);
  }

  /** The ids of the bookings a save creates. */
  function NewIds(keys: seq<string>, stamps: seq<Stamp>): (r: set<string>)
    requires |stamps| == |keys|
    ensures forall i :: 0 <= i < |keys| ==> NewId(keys[i], stamps[i]) in r
    ensures forall x :: x in r ==> exists i :: 0 <= i < |keys| && x == NewId(keys[i], stamps[i])
  {
    set i | 0 <= i < |keys| :: NewId(keys[i], stamps[i])
  }

  lemma NewIdsSplit(keys: seq<string>, stamps: seq<Stamp>)
    requires |stamps| == |keys| > 0
    ensures NewIds(keys, stamps) == {NewId(keys[0], stamps[0])} + NewIds(keys[1..], stamps[1..])
  {
    var all, tail := NewIds(keys, stamps), NewIds(keys[1..], stamps[1..]);
    forall x | x in all ensures x in {NewId(keys[0], stamps[0])} + tail {
      var i :| 0 <= i < |keys| && x == NewId(keys[i], stamps[i]);
      if i > 0 { assert x == NewId(keys[1..][i - 1], stamps[1..][i - 1]); }
    }
  }

  /** A successful save adds exactly the new ids to the booking ids. */
  lemma {:induction false} CreateBookingsKeys(bs: Bookings, keys: seq<string>, stamps: seq<Stamp>,
                                              form: BookingForm, mode: string)
    requires |stamps| == |keys|
    requires CreateBookings(bs, keys, stamps, form, mode).Success?
    ensures CreateBookings(bs, keys, stamps, form, mode).value.Keys == bs.Keys + NewIds(keys, stamps)
    decreases |keys|
  {
    if |keys| > 0 {
      CreateBookingsStep(bs, keys, stamps, form, mode);
      var (tag, zeitslot) := SplitSlotKey(keys[0]).value;
      var b := Booking(Some(form.person), Some(tag), Some(zeitslot), Some(mode),
                       Some(form.notizen), Some(stamps[0].createdAt));
      CreateBookingsKeys(bs[NewId(keys[0], stamps[0]) := b], keys[1..], stamps[1..], form, mode);
      NewIdsSplit(keys, stamps);
    }
  }

  /** A successful save leaves every booking whose id it does not reuse as
      it was. */
  lemma {:induction false} CreateBookingsKeepsOthers(bs: Bookings, keys: seq<string>, stamps: seq<Stamp>,
                                                     form: BookingForm, mode: string, id: string)
    requires |stamps| == |keys|
    requires CreateBookings(bs, keys, stamps, form, mode).Success?
    requires id in bs && id !in NewIds(keys, stamps)
    ensures id in CreateBookings(bs, keys, stamps, form, mode).value
    ensures CreateBookings(bs, keys, stamps, form, mode).value[id] == bs[id]
    decreases |keys|
  {
    if |keys| > 0 {
      CreateBookingsStep(bs, keys, stamps, form, mode);
      var (tag, zeitslot) := SplitSlotKey(keys[0]).value;
      var b := Booking(Some(form.person), Some(tag), Some(zeitslot), Some(mode),
                       Some(form.notizen), Some(stamps[0].createdAt));
      NewIdsSplit(keys, stamps);
      CreateBookingsKeepsOthers(bs[NewId(keys[0], stamps[0]) := b], keys[1..], stamps[1..], form, mode, id);
    }
  }

  /** The booking stored under the id of position `i` is the one created for
      `keys[i]`, unless a later position reuses that id. */
  lemma {:induction false} CreateBookingsCreates(bs: Bookings, keys: seq<string>, stamps: seq<Stamp>,
                                                 form: BookingForm, mode: string, i: nat)
    requires |stamps| == |keys| && i < |keys|
    requires CreateBookings(bs, keys, stamps, form, mode).Success?
    requires LastWriter(keys, stamps, i)
    ensures NewId(keys[i], stamps[i]) in CreateBookings(bs, keys, stamps, form, mode).value
    ensures CreatedFrom(CreateBookings(bs, keys, stamps, form, mode).value[NewId(keys[i], stamps[i])],
                        keys[i], stamps[i], form, mode)
    decreases |keys|
  {
    CreateBookingsStep(bs, keys, stamps, form, mode);
    var (tag, zeitslot) := SplitSlotKey(keys[0]).value;
    var b := Booking(Some(form.person), Some(tag), Some(zeitslot), Some(mode),
                     Some(form.notizen), Some(stamps[0].createdAt));
    var bs' := bs[NewId(keys[0], stamps[0]) := b];
    if i > 0 {
      assert LastWriter(keys[1..], stamps[1..], i - 1) by {
        assert forall j :: i - 1 < j < |keys| - 1 ==> keys[1..][j] == keys[j + 1] && stamps[1..][j] == stamps[j + 1];
      }
      CreateBookingsCreates(bs', keys[1..], stamps[1..], form, mode, i - 1);
      assert keys[1..][i - 1] == keys[i] && stamps[1..][i - 1] == stamps[i];
    } else {
      forall j | 0 <= j < |keys| - 1
        ensures NewId(keys[1..][j], stamps[1..][j]) != NewId(keys[0], stamps[0])
      {
        assert keys[1..][j] == keys[j + 1] && stamps[1..][j] == stamps[j + 1];
      }
      CreateBookingsKeepsOthers(bs', keys[1..], stamps[1..], form, mode, NewId(keys[0], stamps[0]));
    }
  }

  /** The id suffix is a `strftime` of digits: it holds no `_`. */
  predicate PlainSuffixes(stamps: seq<Stamp>) {
    forall i :: 0 <= i < |stamps| ==> '_' !in stamps[i].idSuffix
  }

  /** With plain suffixes, an id determines its key and suffix. */
  lemma NewIdInjective(k1: string, s1: Stamp, k2: string, s2: Stamp)
    requires '_' !in s1.idSuffix && '_' !in s2.idSuffix
    requires NewId(k1, s1) == NewId(k2, s2)
    ensures k1 == k2 && s1.idSuffix == s2.idSuffix
  {
    RSplitJoin(k1, '_', s1.idSuffix);
    RSplitJoin(k2, '_', s2.idSuffix);
    assert NewId(k1, s1) == k1 + ['_'] + s1.idSuffix;
    assert NewId(k2, s2) == k2 + ['_'] + s2.idSuffix;
  }

  /** Distinct keys give pairwise distinct new ids: each id is prefixed by
      its own key. */
  lemma NewIdsDistinct(keys: seq<string>, stamps: seq<Stamp>)
    requires |stamps| == |keys| && Distinct(keys) && PlainSuffixes(stamps)
    ensures forall i, j :: 0 <= i < j < |keys| ==> NewId(keys[i], stamps[i]) != NewId(keys[j], stamps[j])
    ensures forall i :: 0 <= i < |keys| ==> LastWriter(keys, stamps, i)
  {
    forall i, j | 0 <= i < j < |keys|
      ensures NewId(keys[i], stamps[i]) != NewId(keys[j], stamps[j])
    {
      if NewId(keys[i], stamps[i]) == NewId(keys[j], stamps[j]) {
        NewIdInjective(keys[i], stamps[i], keys[j], stamps[j]);
      }
    }
  }

  /** ... so there are as many new ids as keys. */
  lemma {:induction false} NewIdsCount(keys: seq<string>, stamps: seq<Stamp>)
    requires |stamps| == |keys| && Distinct(keys) && PlainSuffixes(stamps)
    ensures |NewIds(keys, stamps)| == |keys|
    decreases |keys|
  {
    if |keys| > 0 {
      var x := NewId(keys[0], stamps[0]);
      assert Distinct(keys[1..]) && PlainSuffixes(stamps[1..]) by {
        assert forall i :: 0 <= i < |keys| - 1 ==> keys[1..][i] == keys[i + 1] && stamps[1..][i] == stamps[i + 1];
      }
      NewIdsCount(keys[1..], stamps[1..]);
      forall j | 0 <= j < |keys| - 1
        ensures NewId(keys[1..][j], stamps[1..][j]) != x
      {
        assert keys[1..][j] == keys[j + 1] && stamps[1..][j] == stamps[j + 1];
        if NewId(keys[1..][j], stamps[1..][j]) == x {
          NewIdInjective(keys[0], stamps[0], keys[j + 1], stamps[j + 1]);
        }
      }
      assert x !in NewIds(keys[1..], stamps[1..]);
      NewIdsSplit(keys, stamps);
    }
  }

  /** A successful save of distinct keys under fresh ids adds exactly one
      booking per key, carrying that key's day and slot and the form's
      person, notes and mode, and leaves every existing booking unchanged. */
  lemma CreateBookingsAddsOnePerKey(bs: Bookings, keys: seq<string>, stamps: seq<Stamp>,
                                    form: BookingForm, mode: string)
    requires |stamps| == |keys| && Distinct(keys) && PlainSuffixes(stamps)
    requires forall i :: 0 <= i < |keys| ==> NewId(keys[i], stamps[i]) !in bs
    requires CreateBookings(bs, keys, stamps, form, mode).Success?
    ensures var r := CreateBookings(bs, keys, stamps, form, mode).value;
      && |r| == |bs| + |keys|
      && (forall id :: id in bs ==> id in r && r[id] == bs[id])
      && (forall i :: 0 <= i < |keys| ==>
            NewId(keys[i], stamps[i]) in r &&
            CreatedFrom(r[NewId(keys[i], stamps[i])], keys[i], stamps[i], form, mode))
  {
    var r := CreateBookings(bs, keys, stamps, form, mode).value;
    CreateBookingsKeys(bs, keys, stamps, form, mode);
    NewIdsDistinct(keys, stamps);
    NewIdsCount(keys, stamps);
    assert bs.Keys !! NewIds(keys, stamps);
    assert |r.Keys| == |bs.Keys| + |NewIds(keys, stamps)|;
    forall id | id in bs
      ensures id in r && r[id] == bs[id]
    {
      CreateBookingsKeepsOthers(bs, keys, stamps, form, mode, id);
    }
    forall i | 0 <= i < |keys|
      ensures NewId(keys[i], stamps[i]) in r
      ensures CreatedFrom(r[NewId(keys[i], stamps[i])], keys[i], stamps[i], form, mode)
    {
      CreateBookingsCreates(bs, keys, stamps, form, mode, i);
    }
  }

  /** The guard the grid provides, carried through the loop: if no booking
      holds two bookings' (day, slot) and every key names a free pair, the
      save keeps it so. Nothing in the save branch itself checks this. */
  lemma {:induction false} CreateBookingsKeepsSlotsUnique(bs: Bookings, keys: seq<string>, stamps: seq<Stamp>,
                                                          form: BookingForm, mode: string)
    requires |stamps| == |keys| && Distinct(keys)
    requires NoDoubleBooking(bs)
    requires forall i :: 0 <= i < |keys| ==> FreeKey(bs, keys[i])
    requires CreateBookings(bs, keys, stamps, form, mode).Success?
    ensures NoDoubleBooking(CreateBookings(bs, keys, stamps, form, mode).value)
    decreases |keys|
  {
    if |keys| > 0 {
      CreateBookingsStep(bs, keys, stamps, form, mode);
      var (tag, zeitslot) := SplitSlotKey(keys[0]).value;
      var b := Booking(Some(form.person), Some(tag), Some(zeitslot), Some(mode),
                       Some(form.notizen), Some(stamps[0].createdAt));
      var id := NewId(keys[0], stamps[0]);
      var bs' := bs[id := b];
      assert zeitslot !in BookedSlots(bs, tag);
      assert NoDoubleBooking(bs') by {
        forall i, j | i in bs' && j in bs' && i != j && bs'[i].tag.Some? && bs'[i].zeitslot.Some?
          ensures !Holds(bs'[j], bs'[i].tag.value, bs'[i].zeitslot.value)
        {
          if i == id {
            assert !Holds(bs[j], tag, zeitslot);
          } else if j == id {
            assert !Holds(bs[i], tag, zeitslot);
          }
        }
      }
      SlotKeyRejoin(keys[0]);
      forall k | 0 <= k < |keys| - 1
        ensures FreeKey(bs', keys[1..][k])
      {
        var key := keys[1..][k];
        assert key == keys[k + 1];
        assert FreeKey(bs, key);
        var (t, z) := SplitSlotKey(key).value;
        SlotKeyRejoin(key);
      }
      assert Distinct(keys[1..]) by {
        assert forall i :: 0 <= i < |keys| - 1 ==> keys[1..][i] == keys[i + 1];
      }
      CreateBookingsKeepsSlotsUnique(bs', keys[1..], stamps[1..], form, mode);
    }
  }

  /** The state a planning page works on: the desks of the loaded document
      and the selection, which is kept per browser session, not per desk. */
  datatype Session = Session(desks: Desks, selection: set<string>)

  /** Every selected key decodes into a day and a slot. */
  predicate AllDecode(selection: set<string>) {
    forall k :: k in selection ==> SplitSlotKey(k).Some?
  }

  /** "Save Bookings" on desk `deskId`: refuse an empty name, then an empty
      selection; otherwise create one booking per selected key (visited in
      `order`), store the bookings on the desk and clear the selection. */
  function SaveBookings(s: Session, deskId: string, form: BookingForm,
                        order: seq<string>, stamps: seq<Stamp>, noComputer: string): (r: Result<Session, SaveError>)
    requires deskId in s.desks
    requires Enumerates(order, s.selection) && |stamps| == |order|
    ensures form.person == "" ==> r == Failure(EmptyName)
    ensures form.person != "" && s.selection == {} ==> r == Failure(EmptySelection)
    ensures r.Failure? && r.error.MalformedKey? ==> r.error.key in s.selection && SplitSlotKey(r.error.key).None?
    ensures r.Success? <==> form.person != "" && s.selection != {} && AllDecode(s.selection)
    ensures r.Success? ==> r.value.selection == {}
    ensures r.Success? ==> r.value.desks.Keys == s.desks.Keys
    ensures r.Success? ==> forall other :: other in s.desks && other != deskId ==> r.value.desks[other] == s.desks[other]
    ensures r.Success? ==> r.value.desks[deskId].buchungen.Some?
    ensures r.Success? ==> r.value.desks[deskId] == s.desks[deskId].(buchungen := r.value.desks[deskId].buchungen)
  {
    var d := s.desks[deskId];
    if form.person == "" then Failure(EmptyName)
    else if s.selection == {} then Failure(EmptySelection)
    else
      var mode := ModeFor(HasComputer(d), form.rechnerModus, noComputer);
      assert AllDecode(s.selection) <==> forall i :: 0 <= i < |order| ==> SplitSlotKey(order[i]).Some? by {
        assert forall k :: k in s.selection <==> k in order;
      }
      match CreateBookings(BookingsOf(d), order, stamps, form, mode)
      case Failure(e) => Failure(e)
      case Success(bs) => Success(Session(s.desks[deskId := d.(buchungen := Some(bs))], {}))
  }

  /** What a successful save stores on the desk, in the terms of the save
      branch: as many new bookings as selected keys, one per key with the
      form's person and notes and, on a desk without a computer, the
      no-computer mode; every existing booking unchanged. */
  lemma SaveBookingsAddsSelection(s: Session, deskId: string, form: BookingForm,
                                  order: seq<string>, stamps: seq<Stamp>, noComputer: string)
    requires deskId in s.desks
    requires Enumerates(order, s.selection) && |stamps| == |order| && PlainSuffixes(stamps)
    requires forall i :: 0 <= i < |order| ==> NewId(order[i], stamps[i]) !in BookingsOf(s.desks[deskId])
    requires SaveBookings(s, deskId, form, order, stamps, noComputer).Success?
    ensures var d := s.desks[deskId];
      var bs := BookingsOf(d);
      var bs' := BookingsOf(SaveBookings(s, deskId, form, order, stamps, noComputer).value.desks[deskId]);
      var mode := if HasComputer(d) then form.rechnerModus else noComputer;
      && |bs'| == |bs| + |s.selection|
      && (forall id :: id in bs ==> id in bs' && bs'[id] == bs[id])
      && (forall key :: key in s.selection ==>
            exists stamp :: NewId(key, stamp) in bs' && CreatedFrom(bs'[NewId(key, stamp)], key, stamp, form, mode))
  {
    var d := s.desks[deskId];
    var mode := ModeFor(HasComputer(d), form.rechnerModus, noComputer);
    CreateBookingsAddsOnePerKey(BookingsOf(d), order, stamps, form, mode);
    DistinctCardinality(order);
    var bs' := BookingsOf(SaveBookings(s, deskId, form, order, stamps, noComputer).value.desks[deskId]);
    forall key | key in s.selection
      ensures exists stamp :: NewId(key, stamp) in bs' && CreatedFrom(bs'[NewId(key, stamp)], key, stamp, form, mode)
    {
      var i :| 0 <= i < |order| && order[i] == key;
      assert NewId(order[i], stamps[i]) in bs';
    }
  }

  /** A sequence of distinct elements has as many elements as its set. */
  lemma {:induction false} DistinctCardinality<T>(xs: seq<T>)
    requires Distinct(xs)
    ensures |set x | x in xs| == |xs|
    decreases |xs|
  {
    if |xs| > 0 {
      var tail := xs[1..];
      assert Distinct(tail) by {
        assert forall i :: 0 <= i < |tail| ==> tail[i] == xs[i + 1];
      }
      DistinctCardinality(tail);
      assert (set x | x in xs) == {xs[0]} + (set x | x in tail) by {
        assert xs == [xs[0]] + tail;
      }
      assert xs[0] !in tail;
    }
  }

  /** A selection made on the grid of this very desk keeps its bookings free
      of double bookings. */
  lemma SaveKeepsSlotsUnique(s: Session, deskId: string, form: BookingForm,
                             order: seq<string>, stamps: seq<Stamp>, noComputer: string)
    requires deskId in s.desks
    requires Enumerates(order, s.selection) && |stamps| == |order|
    requires NoDoubleBooking(BookingsOf(s.desks[deskId]))
    requires FreeSelection(BookingsOf(s.desks[deskId]), s.selection)
    requires SaveBookings(s, deskId, form, order, stamps, noComputer).Success?
    ensures NoDoubleBooking(BookingsOf(SaveBookings(s, deskId, form, order, stamps, noComputer).value.desks[deskId]))
  {
    var d := s.desks[deskId];
    var mode := ModeFor(HasComputer(d), form.rechnerModus, noComputer);
    assert forall i :: 0 <= i < |order| ==> order[i] in s.selection;
    CreateBookingsKeepsSlotsUnique(BookingsOf(d), order, stamps, form, mode);
  }

  /** The selection belongs to the session, not to the desk: a slot selected
      on desk "1", where it is free, is saved on desk "2", where it is
      already taken, and desk "2" ends up double-booked. */
  lemma SelectionIsSessionWide()
    ensures var taken := Booking(Some("A"), Some("Monday"), Some("08:00-09:00"), Some("No Computer"), Some(""), Some("t0"));
      var desk1 := Desk(Some("Desk 1"), Some("schedule"), None, Some(map[]), None, None);
      var desk2 := Desk(Some("Desk 2"), Some("schedule"), None, Some(map["x" := taken]), None, None);
      var key := SlotKey("Monday", "08:00-09:00");
      var s := Session(map["1" := desk1, "2" := desk2], {key});
      var r := SaveBookings(s, "2", BookingForm("B", "", ""), [key], [Stamp("1", "t1")], "No Computer");
      && FreeSelection(BookingsOf(desk1), {key})
      && NoDoubleBooking(BookingsOf(desk2))
      && r.Success?
      && !NoDoubleBooking(BookingsOf(r.value.desks["2"]))
  {
    var taken := Booking(Some("A"), Some("Monday"), Some("08:00-09:00"), Some("No Computer"), Some(""), Some("t0"));
    var key := SlotKey("Monday", "08:00-09:00");
    SplitSlotKeyRoundTrip("Monday", "08:00-09:00");
    var form := BookingForm("B", "", "");
    var made := Booking(Some("B"), Some("Monday"), Some("08:00-09:00"), Some("No Computer"), Some(""), Some("t1"));
    var id := "Monday" + "_" + "08:00-09:00" + "_" + "1";
    assert id != "x";
    CreateBookingsStep(map["x" := taken], [key], [Stamp("1", "t1")], form, "No Computer");
    assert CreateBookings(map["x" := taken], [key], [Stamp("1", "t1")], form, "No Computer")
      == Success(map["x" := taken, id := made]);
    var bs := map["x" := taken, id := made];
    assert Holds(bs[id], bs["x"].tag.value, bs["x"].zeitslot.value);
  }

  // ---------------------------------------------------------------------
  // Deleting a booking
  // ---------------------------------------------------------------------

  /** `del buchungen[buchung_id]`; the id comes from the listed bookings, so
      it is always present. */
  function DeleteBooking(bs: Bookings, id: string): (r: Bookings)
    requires id in bs
    ensures r.Keys == bs.Keys - {id}
    ensures forall k :: k in r ==> r[k] == bs[k]
    ensures |r| == |bs| - 1
  {
    bs - {id}
  }

  /** The delete button of a listed booking: the desk's bookings without it,
      stored back on the desk; nothing else changes. */
  function DeleteOnDesk(desks: Desks, deskId: string, id: string): (r: Desks)
    requires deskId in desks && id in BookingsOf(desks[deskId])
    ensures r.Keys == desks.Keys
    ensures forall other :: other in desks && other != deskId ==> r[other] == desks[other]
    ensures r[deskId] == desks[deskId].(buchungen := r[deskId].buchungen)
    ensures BookingsOf(r[deskId]).Keys == BookingsOf(desks[deskId]).Keys - {id}
    ensures forall k :: k in BookingsOf(r[deskId]) ==> BookingsOf(r[deskId])[k] == BookingsOf(desks[deskId])[k]
  {
    desks[deskId := desks[deskId].(buchungen := Some(DeleteBooking(BookingsOf(desks[deskId]), id)))]
  }

  /** Deleting a booking frees its (day, slot) unless another booking holds
      the same pair; with no double bookings it is always freed. */
  lemma DeleteFreesSlot(bs: Bookings, id: string)
    requires id in bs && bs[id].tag.Some? && bs[id].zeitslot.Some?
    ensures var (t, z) := (bs[id].tag.value, bs[id].zeitslot.value);
      z !in BookedSlots(DeleteBooking(bs, id), t) <==> forall x :: x in bs && x != id ==> !Holds(bs[x], t, z)
    ensures NoDoubleBooking(bs) ==> bs[id].zeitslot.value !in BookedSlots(DeleteBooking(bs, id), bs[id].tag.value)
  {
  }

  /** Deleting the booking a one-slot save just created under a fresh id
      restores the bookings as they were. */
  lemma DeleteUndoesSave(bs: Bookings, key: string, stamp: Stamp, form: BookingForm, mode: string)
    requires NewId(key, stamp) !in bs
    requires CreateBookings(bs, [key], [stamp], form, mode).Success?
    ensures NewId(key, stamp) in CreateBookings(bs, [key], [stamp], form, mode).value
    ensures DeleteBooking(CreateBookings(bs, [key], [stamp], form, mode).value, NewId(key, stamp)) == bs
  {
    CreateBookingsStep(bs, [key], [stamp], form, mode);
    var r := CreateBookings(bs, [key], [stamp], form, mode).value;
    assert NewId(key, stamp) in r;
    assert DeleteBooking(r, NewId(key, stamp)) == bs;
  }

  // ---------------------------------------------------------------------
  // The booking list
  // ---------------------------------------------------------------------

  /** `days.index(t)`: the first position of `t`; `None` where `.index`
      raises. */
  function IndexOf(days: seq<string>, t: string): (r: Option<nat>)
    ensures r.None? <==> t !in days
    ensures r.Some? ==> r.value < |days| && days[r.value] == t && t !in days[..r.value]
  {
    if |days| == 0 then None
    else if days[0] == t then Some(0)
    else
      match IndexOf(days[1..], t)
      case None => None
      case Some(i) =>
        assert days[..i + 1] == [days[0]] + days[1..][..i];
        Some(i + 1)
  }

  /** The sort key of the booking list, `(days.index(tag or defaultDay),
      zeitslot or "")`; `None` where the day is not in `days`. */
  function SortKey(days: seq<string>, defaultDay: string, b: Booking): (r: Option<(nat, string)>)
    ensures r.None? <==> b.tag.GetOr(defaultDay) !in days
    ensures r.Some? ==> r.value.0 < |days| && days[r.value.0] == b.tag.GetOr(defaultDay)
    ensures r.Some? ==> r.value.1 == b.zeitslot.GetOr("")
  {
    match IndexOf(days, b.tag.GetOr(defaultDay))
    case None => None
    case Some(i) => Some((i, b.zeitslot.GetOr("")))
  }

  /** Python's `<` on the key tuples. */
  predicate KeyLt(a: (nat, string), b: (nat, string)) {
    a.0 < b.0 || (a.0 == b.0 && StrLt(a.1, b.1))
  }

  predicate KeyLe(a: (nat, string), b: (nat, string)) {
    !KeyLt(b, a)
  }

  lemma KeyLtAsymmetric(a: (nat, string), b: (nat, string))
    requires KeyLt(a, b)
    ensures KeyLe(a, b)
  {
    if a.0 == b.0 {
      StrLtAsymmetric(a.1, b.1);
    }
  }

  lemma KeyLeTransitive(a: (nat, string), b: (nat, string), c: (nat, string))
    requires KeyLe(a, b) && KeyLe(b, c)
    ensures KeyLe(a, c)
  {
    if a.0 == b.0 && b.0 == c.0 && StrLt(c.1, a.1) {
      if a.1 == b.1 {
      } else {
        StrLtTotal(a.1, b.1);
        if StrLt(a.1, b.1) {
          StrLtTransitive(c.1, a.1, b.1);
        }
      }
    }
  }

  /** Every listed id is a booking whose key can be computed. */
  predicate Keyed(bs: Bookings, days: seq<string>, defaultDay: string, ids: seq<string>) {
    forall i :: 0 <= i < |ids| ==> ids[i] in bs && SortKey(days, defaultDay, bs[ids[i]]).Some?
  }

  function KeyOf(bs: Bookings, days: seq<string>, defaultDay: string, id: string): (nat, string)
    requires id in bs && SortKey(days, defaultDay, bs[id]).Some?
  {
    SortKey(days, defaultDay, bs[id]).value
  }

  /** The ids are listed by ascending key. */
  predicate SortedByKey(bs: Bookings, days: seq<string>, defaultDay: string, ids: seq<string>)
    requires Keyed(bs, days, defaultDay, ids)
  {
    forall i, j :: 0 <= i < j < |ids| ==>
      KeyLe(KeyOf(bs, days, defaultDay, ids[i]), KeyOf(bs, days, defaultDay, ids[j]))
  }

  /** Insert `id` after every id whose key is not greater. */
  function InsertByKey(bs: Bookings, days: seq<string>, defaultDay: string, id: string, ids: seq<string>): (r: seq<string>)
    requires Keyed(bs, days, defaultDay, ids) && SortedByKey(bs, days, defaultDay, ids)
    requires id in bs && SortKey(days, defaultDay, bs[id]).Some?
    ensures multiset(r) == multiset(ids) + multiset{id}
    ensures Keyed(bs, days, defaultDay, r) && SortedByKey(bs, days, defaultDay, r)
    decreases |ids|
  {
    if |ids| == 0 then [id]
    else if KeyLt(KeyOf(bs, days, defaultDay, id), KeyOf(bs, days, defaultDay, ids[0])) then
      var k := KeyOf(bs, days, defaultDay, id);
      KeyLtAsymmetric(k, KeyOf(bs, days, defaultDay, ids[0]));
      forall j | 0 <= j < |ids|
        ensures KeyLe(k, KeyOf(bs, days, defaultDay, ids[j]))
      {
        if j > 0 {
          KeyLeTransitive(k, KeyOf(bs, days, defaultDay, ids[0]), KeyOf(bs, days, defaultDay, ids[j]));
        }
      }
      PrependKeepsSorted(bs, days, defaultDay, id, ids);
      [id] + ids
    else
      var rest := InsertByKey(bs, days, defaultDay, id, ids[1..]);
      var k0 := KeyOf(bs, days, defaultDay, ids[0]);
      assert ids == [ids[0]] + ids[1..];
      forall j | 0 <= j < |rest|
        ensures KeyLe(k0, KeyOf(bs, days, defaultDay, rest[j]))
      {
        assert rest[j] in multiset(rest);
        if rest[j] != id {
          assert rest[j] in multiset(ids[1..]);
          var m :| 0 <= m < |ids[1..]| && ids[1..][m] == rest[j];
          assert ids[m + 1] == rest[j];
        }
      }
      PrependKeepsSorted(bs, days, defaultDay, ids[0], rest);
      [ids[0]] + rest
  }

  /** Putting an id whose key is not above any listed key in front keeps the
      list sorted. */
  lemma PrependKeepsSorted(bs: Bookings, days: seq<string>, defaultDay: string, x: string, ids: seq<string>)
    requires Keyed(bs, days, defaultDay, ids) && SortedByKey(bs, days, defaultDay, ids)
    requires x in bs && SortKey(days, defaultDay, bs[x]).Some?
    requires forall j :: 0 <= j < |ids| ==> KeyLe(KeyOf(bs, days, defaultDay, x), KeyOf(bs, days, defaultDay, ids[j]))
    ensures Keyed(bs, days, defaultDay, [x] + ids) && SortedByKey(bs, days, defaultDay, [x] + ids)
  {
    var r := [x] + ids;
    assert forall j :: 0 < j < |r| ==> r[j] == ids[j - 1];
  }

  /** Python's stable `sorted`, as an insertion sort taking the ids in turn.
      Stability: the ids sharing any one key appear in the order given. */
  function SortByKey(bs: Bookings, days: seq<string>, defaultDay: string, ids: seq<string>): (r: seq<string>)
    requires Keyed(bs, days, defaultDay, ids)
    ensures multiset(r) == multiset(ids)
    ensures Keyed(bs, days, defaultDay, r) && SortedByKey(bs, days, defaultDay, r)
    ensures forall k :: WithKey(bs, days, defaultDay, r, k) == WithKey(bs, days, defaultDay, ids, k)
    decreases |ids|
  {
    if |ids| == 0 then []
    else
      var init := ids[..|ids| - 1];
      var last := ids[|ids| - 1];
      assert ids == init + [last];
      var sorted := SortByKey(bs, days, defaultDay, init);
      InsertByKeyStable(bs, days, defaultDay, last, sorted);
      WithKeyAppend(bs, days, defaultDay, init, last);
      InsertByKey(bs, days, defaultDay, last, sorted)
  }

  /** The listed ids whose key is `k`, in list order. */
  function WithKey(bs: Bookings, days: seq<string>, defaultDay: string, ids: seq<string>, k: (nat, string)): seq<string>
    requires Keyed(bs, days, defaultDay, ids)
    decreases |ids|
  {
    if |ids| == 0 then []
    else
      assert forall i :: 1 <= i < |ids| ==> ids[1..][i - 1] == ids[i];
      (if KeyOf(bs, days, defaultDay, ids[0]) == k then [ids[0]] else []) + WithKey(bs, days, defaultDay, ids[1..], k)
  }

  /** Appending an id adds it at the end of its key's list. */
  lemma {:induction false} WithKeyAppend(bs: Bookings, days: seq<string>, defaultDay: string, ids: seq<string>, x: string)
    requires Keyed(bs, days, defaultDay, ids + [x])
    requires x in bs && SortKey(days, defaultDay, bs[x]).Some?
    ensures Keyed(bs, days, defaultDay, ids)
    ensures forall k ::
              WithKey(bs, days, defaultDay, ids + [x], k) ==
              WithKey(bs, days, defaultDay, ids, k) + (if KeyOf(bs, days, defaultDay, x) == k then [x] else [])
    decreases |ids|
  {
    assert forall i :: 0 <= i < |ids| ==> (ids + [x])[i] == ids[i];
    if |ids| > 0 {
      assert (ids + [x])[1..] == ids[1..] + [x];
      WithKeyAppend(bs, days, defaultDay, ids[1..], x);
    }
  }

  /** No listed id has key `k`. */
  lemma {:induction false} WithKeyEmpty(bs: Bookings, days: seq<string>, defaultDay: string, ids: seq<string>, k: (nat, string))
    requires Keyed(bs, days, defaultDay, ids)
    requires forall j :: 0 <= j < |ids| ==> KeyOf(bs, days, defaultDay, ids[j]) != k
    ensures WithKey(bs, days, defaultDay, ids, k) == []
    decreases |ids|
  {
    if |ids| > 0 {
      assert forall i :: 1 <= i < |ids| ==> ids[1..][i - 1] == ids[i];
      WithKeyEmpty(bs, days, defaultDay, ids[1..], k);
    }
  }

  /** A non-empty list's key lists: its head, then its tail's. */
  lemma WithKeyCons(bs: Bookings, days: seq<string>, defaultDay: string, ids: seq<string>, k: (nat, string))
    requires Keyed(bs, days, defaultDay, ids) && |ids| > 0
    ensures Keyed(bs, days, defaultDay, ids[1..])
    ensures WithKey(bs, days, defaultDay, ids, k) ==
              (if KeyOf(bs, days, defaultDay, ids[0]) == k then [ids[0]] else []) + WithKey(bs, days, defaultDay, ids[1..], k)
  {
    assert forall i :: 1 <= i < |ids| ==> ids[1..][i - 1] == ids[i];
  }

  /** An id put in front of a sorted list whose keys are all above its own
      ends up last (and alone) among the ids of its key. */
  lemma InsertFrontStable(bs: Bookings, days: seq<string>, defaultDay: string, x: string, ids: seq<string>)
    requires Keyed(bs, days, defaultDay, ids) && SortedByKey(bs, days, defaultDay, ids) && |ids| > 0
    requires x in bs && SortKey(days, defaultDay, bs[x]).Some?
    requires KeyLt(KeyOf(bs, days, defaultDay, x), KeyOf(bs, days, defaultDay, ids[0]))
    ensures Keyed(bs, days, defaultDay, [x] + ids)
    ensures forall k :: WithKey(bs, days, defaultDay, [x] + ids, k) ==
              WithKey(bs, days, defaultDay, ids, k) + (if KeyOf(bs, days, defaultDay, x) == k then [x] else [])
  {
    var kx := KeyOf(bs, days, defaultDay, x);
    var k0 := KeyOf(bs, days, defaultDay, ids[0]);
    forall j | 0 <= j < |ids|
      ensures KeyOf(bs, days, defaultDay, ids[j]) != kx
    {
      if j > 0 {
        assert KeyLe(k0, KeyOf(bs, days, defaultDay, ids[j]));
      }
    }
    WithKeyEmpty(bs, days, defaultDay, ids, kx);
    var r := [x] + ids;
    assert r[1..] == ids;
    assert forall i :: 1 <= i < |r| ==> r[i] == ids[i - 1];
    forall k
      ensures WithKey(bs, days, defaultDay, r, k) ==
                WithKey(bs, days, defaultDay, ids, k) + (if kx == k then [x] else [])
    {
      WithKeyCons(bs, days, defaultDay, r, k);
    }
  }

  /** Insertion places the id after every id of the same key. */
  lemma {:induction false} InsertByKeyStable(bs: Bookings, days: seq<string>, defaultDay: string, x: string, ids: seq<string>)
    requires Keyed(bs, days, defaultDay, ids) && SortedByKey(bs, days, defaultDay, ids)
    requires x in bs && SortKey(days, defaultDay, bs[x]).Some?
    ensures var r := InsertByKey(bs, days, defaultDay, x, ids);
      forall k :: WithKey(bs, days, defaultDay, r, k) ==
        WithKey(bs, days, defaultDay, ids, k) + (if KeyOf(bs, days, defaultDay, x) == k then [x] else [])
    decreases |ids|
  {
    if |ids| > 0 {
      var kx := KeyOf(bs, days, defaultDay, x);
      var k0 := KeyOf(bs, days, defaultDay, ids[0]);
      if KeyLt(kx, k0) {
        InsertFrontStable(bs, days, defaultDay, x, ids);
      } else {
        InsertConsStable(bs, days, defaultDay, x, ids);
      }
    }
  }

  /** The recursive step of `InsertByKeyStable`: the head stays in front. */
  lemma {:induction false} InsertConsStable(bs: Bookings, days: seq<string>, defaultDay: string, x: string, ids: seq<string>)
    requires Keyed(bs, days, defaultDay, ids) && SortedByKey(bs, days, defaultDay, ids) && |ids| > 0
    requires x in bs && SortKey(days, defaultDay, bs[x]).Some?
    requires !KeyLt(KeyOf(bs, days, defaultDay, x), KeyOf(bs, days, defaultDay, ids[0]))
    ensures var r := InsertByKey(bs, days, defaultDay, x, ids);
      forall k :: WithKey(bs, days, defaultDay, r, k) ==
        WithKey(bs, days, defaultDay, ids, k) + (if KeyOf(bs, days, defaultDay, x) == k then [x] else [])
    decreases |ids|, 0
  {
    var kx := KeyOf(bs, days, defaultDay, x);
    var tail := ids[1..];
    assert forall i :: 1 <= i < |ids| ==> tail[i - 1] == ids[i];
    assert Keyed(bs, days, defaultDay, tail) && SortedByKey(bs, days, defaultDay, tail);
    var rest := InsertByKey(bs, days, defaultDay, x, tail);
    var r := InsertByKey(bs, days, defaultDay, x, ids);
    assert r == [ids[0]] + rest;
    assert r[1..] == rest && r[0] == ids[0];
    InsertByKeyStable(bs, days, defaultDay, x, tail);
    forall k
      ensures WithKey(bs, days, defaultDay, r, k) ==
                WithKey(bs, days, defaultDay, ids, k) + (if kx == k then [x] else [])
    {
      WithKeyCons(bs, days, defaultDay, r, k);
      WithKeyCons(bs, days, defaultDay, ids, k);
    }
  }

  /** The first listed booking whose day is not in `days` (the one whose key
      makes `sorted` raise), or `None`. */
  function FirstUnknownDay(bs: Bookings, days: seq<string>, defaultDay: string, ids: seq<string>): (r: Option<string>)
    requires forall i :: 0 <= i < |ids| ==> ids[i] in bs
    ensures r.None? <==> Keyed(bs, days, defaultDay, ids)
    ensures r.Some? ==> r.value !in days
    ensures r.Some? ==> exists i :: 0 <= i < |ids| && bs[ids[i]].tag.GetOr(defaultDay) == r.value
    decreases |ids|
  {
    if |ids| == 0 then None
    else if SortKey(days, defaultDay, bs[ids[0]]).None? then Some(bs[ids[0]].tag.GetOr(defaultDay))
    else
      var r := FirstUnknownDay(bs, days, defaultDay, ids[1..]);
      assert forall i :: 1 <= i < |ids| ==> ids[i] == ids[1..][i - 1];
      r
  }

  /** `sorted(buchungen.items(), key=...)` over the bookings listed in dict
      order: `Failure(day)` for an unknown day, else the ids in key order. */
  function SortBookings(bs: Bookings, order: seq<string>, days: seq<string>, defaultDay: string): (r: Result<seq<string>, string>)
    requires Enumerates(order, bs.Keys)
    ensures r.Failure? <==> exists id :: id in bs && SortKey(days, defaultDay, bs[id]).None?
    ensures r.Failure? ==> r.error !in days
    ensures r.Failure? ==> exists id :: id in bs && bs[id].tag.GetOr(defaultDay) == r.error
    ensures r.Success? ==> multiset(r.value) == multiset(order)
    ensures r.Success? ==> Keyed(bs, days, defaultDay, r.value) && SortedByKey(bs, days, defaultDay, r.value)
    // ties keep dict order: the bookings sharing a key are listed as `order` lists them
    ensures r.Success? ==> Keyed(bs, days, defaultDay, order)
    ensures r.Success? ==> forall k :: WithKey(bs, days, defaultDay, r.value, k) == WithKey(bs, days, defaultDay, order, k)
  {
    assert forall i :: 0 <= i < |order| ==> order[i] in bs;
    match FirstUnknownDay(bs, days, defaultDay, order)
    case Some(t) => Failure(t)
    case None =>
      assert forall id :: id in bs ==> SortKey(days, defaultDay, bs[id]).Some? by {
        forall id | id in bs ensures SortKey(days, defaultDay, bs[id]).Some? {
          var i :| 0 <= i < |order| && order[i] == id;
        }
      }
      Success(SortByKey(bs, days, defaultDay, order))
  }

  /** The booking list of this app: ordered by the day's place in
      `WEEKDAYS_ALL`, then by slot, a missing day read as "Monday". */
  lemma BookingListOrder(bs: Bookings, order: seq<string>, i: nat, j: nat)
    requires Enumerates(order, bs.Keys)
    requires SortBookings(bs, order, WeekdaysAll, "Monday").Success?
    requires i < j < |SortBookings(bs, order, WeekdaysAll, "Monday").value|
    ensures var ids := SortBookings(bs, order, WeekdaysAll, "Monday").value;
      var (a, b) := (bs[ids[i]], bs[ids[j]]);
      var (da, db) := (a.tag.GetOr("Monday"), b.tag.GetOr("Monday"));
      && da in WeekdaysAll && db in WeekdaysAll
      && IndexOf(WeekdaysAll, da).value <= IndexOf(WeekdaysAll, db).value
      && (da == db ==> !StrLt(b.zeitslot.GetOr(""), a.zeitslot.GetOr("")))
  {
    WeekdaysPrefix();
  }

  // ---------------------------------------------------------------------
  // The weekly overview
  // ---------------------------------------------------------------------

  /** The positions in `order` of the bookings on (`tag`, `slot`). */
  ghost function HolderPositions(bs: Bookings, order: seq<string>, tag: string, slot: string): set<int>
    requires forall i :: 0 <= i < |order| ==> order[i] in bs
  {
    set i | 0 <= i < |order| && Holds(bs[order[i]], tag, slot)
  }

  /** The positions in `order` of the bookings on (`tag`, `slot`), listed
      in increasing order: the dict order in which the overview meets them. */
  ghost function HolderIndices(bs: Bookings, order: seq<string>, tag: string, slot: string): (idx: seq<nat>)
    requires forall i :: 0 <= i < |order| ==> order[i] in bs
    ensures forall a, b :: 0 <= a < b < |idx| ==> idx[a] < idx[b]
    ensures forall a :: 0 <= a < |idx| ==> idx[a] < |order|
    ensures forall i: nat :: i in idx <==> i < |order| && Holds(bs[order[i]], tag, slot)
    decreases |order|
  {
    if |order| == 0 then []
    else
      var n := |order| - 1;
      var before := HolderIndices(bs, order[..n], tag, slot);
      assert forall i :: 0 <= i < n ==> order[..n][i] == order[i];
      if Holds(bs[order[n]], tag, slot) then before + [n] else before
  }

  /** `tag_buchungen[slot]`: the persons of the bookings on (`tag`, `slot`),
      in dict order, `unknown` for a booking without person — one entry per
      such booking, so every holder of the slot is listed, in the order the
      bookings are met. */
  function GridCell(bs: Bookings, order: seq<string>, tag: string, slot: string, unknown: string): (r: seq<string>)
    requires forall i :: 0 <= i < |order| ==> order[i] in bs
    ensures |r| == |HolderPositions(bs, order, tag, slot)|
    ensures |r| > 0 <==> exists i :: 0 <= i < |order| && Holds(bs[order[i]], tag, slot)
    ensures forall p :: p in r ==>
      exists i :: 0 <= i < |order| && Holds(bs[order[i]], tag, slot) && bs[order[i]].person.GetOr(unknown) == p
    ensures forall i :: 0 <= i < |order| && Holds(bs[order[i]], tag, slot) ==> bs[order[i]].person.GetOr(unknown) in r
    ensures ListsHolders(bs, order, tag, slot, unknown, r)
  {
    var r := CellPersons(bs, order, tag, slot, unknown);
    CellMembership(bs, order, tag, slot, unknown, r);
    r
  }

  /** The loop of `GridCell`: the persons of the holders, one booking of
      `order` at a time. */
  function CellPersons(bs: Bookings, order: seq<string>, tag: string, slot: string, unknown: string): (r: seq<string>)
    requires forall i :: 0 <= i < |order| ==> order[i] in bs
    ensures |r| == |HolderPositions(bs, order, tag, slot)|
    ensures ListsHolders(bs, order, tag, slot, unknown, r)
    decreases |order|
  {
    if |order| == 0 then
      CellBase(bs, order, tag, slot, unknown);
      []
    else
      var n := |order| - 1;
      PrefixInBookings(bs, order, n);
      var before := CellPersons(bs, order[..n], tag, slot, unknown);
      var r := if Holds(bs[order[n]], tag, slot) then before + [bs[order[n]].person.GetOr(unknown)] else before;
      CellStep(bs, order, tag, slot, unknown, before, r);
      r
  }

  /** With no bookings there is no holder. */
  lemma CellBase(bs: Bookings, order: seq<string>, tag: string, slot: string, unknown: string)
    requires |order| == 0
    ensures |HolderPositions(bs, order, tag, slot)| == 0
    ensures ListsHolders(bs, order, tag, slot, unknown, [])
  {
    assert HolderPositions(bs, order, tag, slot) == {};
    assert HolderIndices(bs, order, tag, slot) == [];
  }

  /** Dropping the last id keeps every listed id a booking. */
  lemma PrefixInBookings(bs: Bookings, order: seq<string>, n: nat)
    requires n < |order| && forall i :: 0 <= i < |order| ==> order[i] in bs
    ensures forall i :: 0 <= i < n ==> order[..n][i] in bs
  {
  }

  /** Entry k of a cell is the person of the k-th holder in dict order. */
  ghost predicate ListsHolders(bs: Bookings, order: seq<string>, tag: string, slot: string, unknown: string, r: seq<string>)
    requires forall i :: 0 <= i < |order| ==> order[i] in bs
  {
    var idx := HolderIndices(bs, order, tag, slot);
    |r| == |idx| && forall k :: 0 <= k < |r| ==> r[k] == bs[order[idx[k]]].person.GetOr(unknown)
  }

  /** One more booking in dict order adds its person at the end exactly when
      it holds the slot. */
  lemma CellStep(bs: Bookings, order: seq<string>, tag: string, slot: string, unknown: string, before: seq<string>, r: seq<string>)
    requires |order| > 0 && forall i :: 0 <= i < |order| ==> order[i] in bs
    requires var n := |order| - 1;
      && ListsHolders(bs, order[..n], tag, slot, unknown, before)
      && |before| == |HolderPositions(bs, order[..n], tag, slot)|
      && r == if Holds(bs[order[n]], tag, slot) then before + [bs[order[n]].person.GetOr(unknown)] else before
    ensures ListsHolders(bs, order, tag, slot, unknown, r)
    ensures |r| == |HolderPositions(bs, order, tag, slot)|
  {
    var n := |order| - 1;
    assert forall i :: 0 <= i < n ==> order[..n][i] == order[i];
    HolderPositionsStep(bs, order, tag, slot);
  }

  /** What a cell that lists the holders contains: exactly their persons. */
  lemma CellMembership(bs: Bookings, order: seq<string>, tag: string, slot: string, unknown: string, r: seq<string>)
    requires forall i :: 0 <= i < |order| ==> order[i] in bs
    requires ListsHolders(bs, order, tag, slot, unknown, r)
    ensures forall p :: p in r ==>
      exists i :: 0 <= i < |order| && Holds(bs[order[i]], tag, slot) && bs[order[i]].person.GetOr(unknown) == p
    ensures forall i :: 0 <= i < |order| && Holds(bs[order[i]], tag, slot) ==> bs[order[i]].person.GetOr(unknown) in r
    ensures |r| > 0 <==> exists i :: 0 <= i < |order| && Holds(bs[order[i]], tag, slot)
  {
    var idx := HolderIndices(bs, order, tag, slot);
    forall p | p in r
      ensures exists i :: 0 <= i < |order| && Holds(bs[order[i]], tag, slot) && bs[order[i]].person.GetOr(unknown) == p
    {
      var k :| 0 <= k < |r| && r[k] == p;
      assert idx[k] in idx;
    }
    forall i | 0 <= i < |order| && Holds(bs[order[i]], tag, slot)
      ensures bs[order[i]].person.GetOr(unknown) in r
    {
      var k :| 0 <= k < |idx| && idx[k] == i;
      assert r[k] == bs[order[i]].person.GetOr(unknown);
    }
    if |r| > 0 {
      assert r[0] in r;
    }
  }

  /** Taking off the last position: it counts once if it holds the slot. */
  lemma HolderPositionsStep(bs: Bookings, order: seq<string>, tag: string, slot: string)
    requires |order| > 0 && forall i :: 0 <= i < |order| ==> order[i] in bs
    ensures var n := |order| - 1;
      |HolderPositions(bs, order, tag, slot)| ==
        |HolderPositions(bs, order[..n], tag, slot)| + (if Holds(bs[order[n]], tag, slot) then 1 else 0)
  {
    var n := |order| - 1;
    var before := HolderPositions(bs, order[..n], tag, slot);
    var last: set<int> := if Holds(bs[order[n]], tag, slot) then {n} else {};
    assert forall i :: 0 <= i < n ==> order[..n][i] == order[i];
    assert HolderPositions(bs, order, tag, slot) == before + last;
    assert n !in before;
  }

  /** `tag_buchungen` for one day: a cell for every slot of `slots`
      (`TIMESLOTS` here). */
  function DayGrid(bs: Bookings, order: seq<string>, tag: string, slots: seq<string>, unknown: string): (r: map<string, seq<string>>)
    requires forall i :: 0 <= i < |order| ==> order[i] in bs
    ensures forall slot :: slot in r <==> slot in slots
  {
    map slot | slot in slots :: GridCell(bs, order, tag, slot, unknown)
  }

  /** A cell of the overview lists someone exactly when the slot is booked,
      and bookings on slots outside the grid are not shown. */
  lemma DayGridShowsBooked(bs: Bookings, order: seq<string>, tag: string, unknown: string, slot: string)
    requires Enumerates(order, bs.Keys)
    ensures slot in DayGrid(bs, order, tag, Timeslots, unknown) <==> slot in Timeslots
    ensures slot in Timeslots ==>
      (|DayGrid(bs, order, tag, Timeslots, unknown)[slot]| > 0 <==> slot in BookedSlots(bs, tag))
  {
    assert forall i :: 0 <= i < |order| ==> order[i] in bs;
    if slot in Timeslots {
      if slot in BookedSlots(bs, tag) {
        var id :| id in bs && Holds(bs[id], tag, slot);
        var i :| 0 <= i < |order| && order[i] == id;
      }
    }
  }

  /** Without double bookings a cell names at most one person. */
  lemma {:induction false} GridCellAtMostOne(bs: Bookings, order: seq<string>, tag: string, slot: string, unknown: string)
    requires Distinct(order) && forall i :: 0 <= i < |order| ==> order[i] in bs
    requires NoDoubleBooking(bs)
    ensures |GridCell(bs, order, tag, slot, unknown)| <= 1
    decreases |order|
  {
    if |order| > 0 {
      var n := |order| - 1;
      var front := order[..n];
      assert Distinct(front) by {
        assert forall i :: 0 <= i < |front| ==> front[i] == order[i];
      }
      GridCellAtMostOne(bs, front, tag, slot, unknown);
      if Holds(bs[order[n]], tag, slot) {
        forall i | 0 <= i < |front|
          ensures !Holds(bs[front[i]], tag, slot)
        {
          assert front[i] == order[i] && front[i] != order[n];
        }
      }
    }
  }

  // ---------------------------------------------------------------------
  // Full-booking and project desks
  // ---------------------------------------------------------------------

  /** Which view the planning page shows for a desk. */
  datatype PlanningView = FullBookingView | ProjectView | ScheduleView

  /** The view chosen by the desk's `typ`; any other or a missing type gets
      the schedule view. */
  function ViewFor(d: Desk): (v: PlanningView)
    ensures v == FullBookingView <==> d.typ == Some("fullbooking")
    ensures v == ProjectView <==> d.typ == Some("projekt")
  {
    if d.typ == Some("fullbooking") then FullBookingView
    else if d.typ == Some("projekt") then ProjectView
    else ScheduleView
  }

  /** The view and the room-view status agree: the project view is shown
      exactly for desks with the project indicator, and a fully booked desk
      is shown in the full-booking view. */
  lemma ViewMatchesStatus(d: Desk)
    ensures ViewFor(d) == ProjectView <==> DeskStatus(d).0 == Project
    ensures DeskStatus(d).0 == FullyBooked ==> ViewFor(d) == FullBookingView
  {
  }

  /** "Save" in the full-booking view: `gebucht_von` is set to the entered
      name; nothing else changes. */
  function SaveOccupant(desks: Desks, deskId: string, name: string): (r: Desks)
    requires deskId in desks
    ensures r.Keys == desks.Keys
    ensures forall other :: other in desks && other != deskId ==> r[other] == desks[other]
    ensures r[deskId].gebuchtVon == Some(name)
    ensures r[deskId] == desks[deskId].(gebuchtVon := r[deskId].gebuchtVon)
  {
    desks[deskId := desks[deskId].(gebuchtVon := Some(name))]
  }

  /** "Save" in the project view: `projekt_name` and `gebucht_von` are set;
      nothing else changes. */
  function SaveProject(desks: Desks, deskId: string, projectName: string, contact: string): (r: Desks)
    requires deskId in desks
    ensures r.Keys == desks.Keys
    ensures forall other :: other in desks && other != deskId ==> r[other] == desks[other]
    ensures r[deskId].projektName == Some(projectName) && r[deskId].gebuchtVon == Some(contact)
    ensures r[deskId] == desks[deskId].(projektName := r[deskId].projektName, gebuchtVon := r[deskId].gebuchtVon)
  {
    desks[deskId := desks[deskId].(projektName := Some(projectName), gebuchtVon := Some(contact))]
  }

  /** Saving a name on a full-booking desk makes it fully booked by that
      name; clearing the name leaves the status to the desk's bookings, so
      stale hourly bookings still show as partly booked. */
  lemma SaveOccupantStatus(desks: Desks, deskId: string, name: string)
    requires deskId in desks && desks[deskId].typ == Some("fullbooking")
    ensures var d := SaveOccupant(desks, deskId, name)[deskId];
      && (name != "" ==> DeskStatus(d) == (FullyBooked, "Booked: " + name))
      && (name == "" && |BookingsOf(d)| > 0 ==> DeskStatus(d).0 == PartiallyBooked)
      && (name == "" && |BookingsOf(d)| == 0 ==> DeskStatus(d) == (Free, "Free"))
  {
  }

  /** Saving a project on a project desk gives the project indicator, with
      the contact line exactly when a contact is entered. */
  lemma SaveProjectStatus(desks: Desks, deskId: string, projectName: string, contact: string)
    requires deskId in desks && desks[deskId].typ == Some("projekt")
    ensures var d := SaveProject(desks, deskId, projectName, contact)[deskId];
      && DeskStatus(d).0 == Project
      && (projectName == "" ==> DeskStatus(d).1 == "Project (unassigned)")
      && (projectName != "" && contact == "" ==> DeskStatus(d).1 == "Project: " + projectName)
      && (projectName != "" && contact != "" ==>
            DeskStatus(d).1 == "Project: " + projectName + "\nContact: " + contact)
  {
  }
}
