/** tischplanung_app.py: the earlier single-file German app. It shares the
    JSON document with the modular app but loads and saves it without the
    migration, offers the German vocabulary, knows only the desk types
    "stundenplan" and "vollbuchung", and has no project desks. Operations
    that are the same as the modular app's up to a constant (the slot-key
    click, the occupant save, deleting a booking, the weekly overview) are
    the DeskPlanning members applied to the constants below. */
module LegacyApp {
  import opened Outcomes
  import opened Text
  import opened Config
  import opened DeskData
  import opened Utils
  import opened DeskPlanning
  import opened DeskConfig

  /** `WOCHENTAGE`. */
  const Wochentage: seq<string> := ["Montag", "Dienstag", "Mittwoch", "Donnerstag", "Freitag"]

  /** `WOCHENTAGE_ALLE`. */
  const WochentageAlle: seq<string> :=
    ["Montag", "Dienstag", "Mittwoch", "Donnerstag", "Freitag", "Samstag", "Sonntag"]

  /** `ZEITSLOTS_BUCHUNG` and `ZEITSLOTS`, built by the same comprehension as
      the modular app's lists. */
  const ZeitslotsBuchung: seq<string> := seq(10, i requires 0 <= i => SlotString(8 + i))
  const Zeitslots: seq<string> := seq(12, i requires 0 <= i => SlotString(8 + i))

  /** The usage selector of a desk with a computer, and the mode recorded on
      a desk without one. */
  const Rechnermodi: seq<string> :=
    ["Nur Bildschirme", "Rechner aktiv (abschaltbar)", "Trainings-Modus (nicht abschaltbar)"]
  const KeinRechner: string := "Kein Rechner"

  /** The options of the type and computer-type selectors. */
  const Buchungstypen: seq<string> := ["stundenplan", "vollbuchung"]
  const Rechnertypen: seq<string> := ["GPU", "CPU", "Leer"]

  // ---------------------------------------------------------------------
  // Vocabulary
  // ---------------------------------------------------------------------

  /** The legacy slot lists are the modular app's lists. */
  lemma LegacySlotsAreModern()
    ensures ZeitslotsBuchung == TimeslotsBooking && Zeitslots == Timeslots
  {
  }

  /** Every value the legacy app writes is a key of a migration table, and
      the table carries it to the modular app's value at the same position:
      weekdays, usage modes, the no-computer mode, desk types and computer
      types. */
  lemma LegacyVocabularyMigrates()
    ensures |WochentageAlle| == |WeekdaysAll| && Wochentage == WochentageAlle[..5]
    ensures forall i :: 0 <= i < |WochentageAlle| ==>
      WochentageAlle[i] in WeekdayMapping && WeekdayMapping[WochentageAlle[i]] == WeekdaysAll[i]
    ensures |Rechnermodi| == |ComputerModes|
    ensures forall i :: 0 <= i < |Rechnermodi| ==>
      Rechnermodi[i] in ComputerModeMapping && ComputerModeMapping[Rechnermodi[i]] == ComputerModes[i]
    ensures KeinRechner in ComputerModeMapping && ComputerModeMapping[KeinRechner] == NoComputerMode
    ensures |Buchungstypen| == 2 && forall i :: 0 <= i < 2 ==>
      Buchungstypen[i] in DeskTypeMapping && DeskTypeMapping[Buchungstypen[i]] == DeskTypes[i]
    ensures |Rechnertypen| == |ComputerTypes|
    ensures forall i :: 0 <= i < |Rechnertypen| ==>
      Rechnertypen[i] in ComputerTypeMapping && ComputerTypeMapping[Rechnertypen[i]] == ComputerTypes[i]
  {
  }

  // ---------------------------------------------------------------------
  // Loading
  // ---------------------------------------------------------------------

  /** `load_config` of the legacy app: the stored document as it is, or an
      empty one when the file is missing; nothing is migrated. */
  function LegacyLoadConfig(stored: Option<Document>): (c: Document)
    ensures stored.Some? ==> c == stored.value
    ensures stored.None? ==> c == Document(Some(map[]))
  {
    stored.GetOr(Document(Some(map[])))
  }

  /** The modular app reads what the legacy app reads, migrated. */
  lemma LoadIsMigratedLegacyLoad(stored: Option<Document>)
    ensures LoadConfig(stored) == Migrate(LegacyLoadConfig(stored))
  {
  }

  // ---------------------------------------------------------------------
  // Status and view
  // ---------------------------------------------------------------------

  /** The room view's inline status: an occupied "vollbuchung" desk, then any
      bookings, else free; there is no project branch. */
  function LegacyDeskStatus(d: Desk): (r: (Indicator, string))
    ensures r.0 != Project
    ensures r.0 == FullyBooked <==> d.typ == Some("vollbuchung") && d.gebuchtVon.GetOr("") != ""
    ensures r.0 == PartiallyBooked <==>
      !(d.typ == Some("vollbuchung") && d.gebuchtVon.GetOr("") != "") && |BookingsOf(d)| > 0
    ensures r.0 == FullyBooked ==> r.1 == "Gebucht: " + d.gebuchtVon.value
    ensures r.0 == PartiallyBooked ==> r.1 == NatToString(|BookingsOf(d)|) + " Buchungen"
    ensures r.0 == Free ==> r.1 == "Frei"
  {
    var buchungen := BookingsOf(d);
    var gebuchtVon := d.gebuchtVon.GetOr("");
    if d.typ == Some("vollbuchung") && gebuchtVon != "" then (FullyBooked, "Gebucht: " + gebuchtVon)
    else if |buchungen| > 0 then (PartiallyBooked, NatToString(|buchungen|) + " Buchungen")
    else (Free, "Frei")
  }

  /** The two apps show the same indicator for a desk, the modular one after
      migrating it, except for project desks and for occupied desks already
      typed "fullbooking", which the legacy app does not recognise. */
  lemma LegacyStatusAfterMigration(d: Desk)
    ensures LegacyDeskStatus(d).0 == DeskStatus(MigrateDesk(d)).0 <==>
      d.typ != Some("projekt") && !(d.typ == Some("fullbooking") && d.gebuchtVon.GetOr("") != "")
  {
    var m := MigrateDesk(d);
    assert |BookingsOf(m)| == |BookingsOf(d)| by {
      assert BookingsOf(m).Keys == BookingsOf(d).Keys;
    }
    MigratedType(d);
  }

  /** The planning view: the occupant form for "vollbuchung", the schedule
      for everything else. */
  function LegacyViewFor(d: Desk): (v: PlanningView)
    ensures v != ProjectView
    ensures v == FullBookingView <==> d.typ == Some("vollbuchung")
  {
    if d.typ == Some("vollbuchung") then FullBookingView else ScheduleView
  }

  /** The two apps open the same view for a desk, the modular one after
      migrating it, unless the desk is already typed "fullbooking" or
      "projekt". */
  lemma LegacyViewAfterMigration(d: Desk)
    ensures LegacyViewFor(d) == ViewFor(MigrateDesk(d)) <==>
      d.typ != Some("fullbooking") && d.typ != Some("projekt")
  {
  }

  // ---------------------------------------------------------------------
  // Saving bookings
  // ---------------------------------------------------------------------

  /** The save branch of the legacy booking form: the modular save with the
      German no-computer mode. */
  function LegacySaveBookings(s: Session, deskId: string, form: BookingForm,
                              order: seq<string>, stamps: seq<Stamp>): (r: Result<Session, SaveError>)
    requires deskId in s.desks
    requires Enumerates(order, s.selection) && |stamps| == |order|
    ensures form.person == "" ==> r == Failure(EmptyName)
    ensures form.person != "" && s.selection == {} ==> r == Failure(EmptySelection)
    ensures r.Failure? && r.error.MalformedKey? ==> r.error.key in s.selection && SplitSlotKey(r.error.key).None?
    ensures r.Success? <==> form.person != "" && s.selection != {} && AllDecode(s.selection)
    ensures r.Success? ==> r.value.selection == {} && r.value.desks.Keys == s.desks.Keys
    ensures r.Success? ==> forall other :: other in s.desks && other != deskId ==> r.value.desks[other] == s.desks[other]
    ensures r.Success? ==> r.value.desks[deskId] == s.desks[deskId].(buchungen := r.value.desks[deskId].buchungen)
  {
    SaveBookings(s, deskId, form, order, stamps, KeinRechner)
  }

  /** Two bookings that differ only in a usage mode the migration maps to
      the same value migrate to the same booking. */
  predicate SameAfterMigration(m1: string, m2: string) {
    Translate(ComputerModeMapping, Some(m1)) == Translate(ComputerModeMapping, Some(m2))
  }

  lemma MigrateBookingsUpdate(bs: Bookings, id: string, b: Booking)
    ensures MigrateBookings(bs[id := b]) == MigrateBookings(bs)[id := MigrateBooking(b)]
  {
  }

  /** The save loop run with two modes that migrate alike, on two maps that
      migrate alike, stops on the same key or yields maps that migrate
      alike. */
  lemma {:induction false} CreateBookingsModeAgnostic(bs1: Bookings, bs2: Bookings, keys: seq<string>, stamps: seq<Stamp>,
                                                       form1: BookingForm, form2: BookingForm, m1: string, m2: string)
    requires |stamps| == |keys|
    requires MigrateBookings(bs1) == MigrateBookings(bs2)
    requires form1.person == form2.person && form1.notizen == form2.notizen
    requires SameAfterMigration(m1, m2)
    ensures var (r1, r2) := (CreateBookings(bs1, keys, stamps, form1, m1), CreateBookings(bs2, keys, stamps, form2, m2));
      && r1.Success? == r2.Success?
      && (r1.Failure? ==> r1.error == r2.error)
      && (r1.Success? ==> MigrateBookings(r1.value) == MigrateBookings(r2.value))
    decreases |keys|
  {
    if |keys| > 0 {
      match SplitSlotKey(keys[0])
      case None =>
      case Some((tag, zeitslot)) =>
        var id := tag + "_" + zeitslot + "_" + stamps[0].idSuffix;
        var b1 := Booking(Some(form1.person), Some(tag), Some(zeitslot), Some(m1),
                          Some(form1.notizen), Some(stamps[0].createdAt));
        var b2 := Booking(Some(form2.person), Some(tag), Some(zeitslot), Some(m2),
                          Some(form2.notizen), Some(stamps[0].createdAt));
        assert MigrateBooking(b1) == MigrateBooking(b2);
        MigrateBookingsUpdate(bs1, id, b1);
        MigrateBookingsUpdate(bs2, id, b2);
        CreateBookingsModeAgnostic(bs1[id := b1], bs2[id := b2], keys[1..], stamps[1..], form1, form2, m1, m2);
    }
  }

  /** A legacy save and a modular save of the same selection, with the same
      person and notes and usage modes that migrate alike, fail alike or
      leave bookings that are the same once migrated. */
  lemma LegacySaveAgreesAfterMigration(s: Session, deskId: string, legacyForm: BookingForm, modernForm: BookingForm,
                                       order: seq<string>, stamps: seq<Stamp>)
    requires deskId in s.desks
    requires Enumerates(order, s.selection) && |stamps| == |order|
    requires legacyForm.person == modernForm.person && legacyForm.notizen == modernForm.notizen
    requires SameAfterMigration(legacyForm.rechnerModus, modernForm.rechnerModus)
    ensures var l := LegacySaveBookings(s, deskId, legacyForm, order, stamps);
      var m := SaveBookings(s, deskId, modernForm, order, stamps, NoComputerMode);
      && l.Success? == m.Success?
      && (l.Failure? ==> l.error == m.error)
      && (l.Success? ==> MigrateBookings(BookingsOf(l.value.desks[deskId])) == MigrateBookings(BookingsOf(m.value.desks[deskId])))
  {
    var d := s.desks[deskId];
    LegacyVocabularyMigrates();
    var m1 := ModeFor(HasComputer(d), legacyForm.rechnerModus, KeinRechner);
    var m2 := ModeFor(HasComputer(d), modernForm.rechnerModus, NoComputerMode);
    assert SameAfterMigration(m1, m2);
    CreateBookingsModeAgnostic(BookingsOf(d), BookingsOf(d), order, stamps, legacyForm, modernForm, m1, m2);
  }

  // ---------------------------------------------------------------------
  // The booking list and the weekly overview
  // ---------------------------------------------------------------------

  /** The legacy booking list sorts by the day's place in `WOCHENTAGE_ALLE`,
      a missing day read as "Montag"; it is produced exactly when every
      booking's day is a German weekday. */
  lemma LegacyListSucceedsIff(bs: Bookings, order: seq<string>)
    requires Enumerates(order, bs.Keys)
    ensures SortBookings(bs, order, WochentageAlle, "Montag").Success? <==>
      forall id :: id in bs ==> bs[id].tag.GetOr("Montag") in WochentageAlle
  {
    forall id | id in bs
      ensures SortKey(WochentageAlle, "Montag", bs[id]).None? <==> bs[id].tag.GetOr("Montag") !in WochentageAlle
    {
    }
  }

  /** No English weekday is a German one: every English name ends in 'y',
      no German one does. */
  lemma WeekdayListsDisjoint(t: string)
    requires t in WeekdaysAll
    ensures t !in WochentageAlle
  {
    assert |t| > 0 && t[|t| - 1] == 'y';
    forall u | u in WochentageAlle
      ensures u != t
    {
      assert |u| > 0 && u[|u| - 1] != 'y';
    }
  }

  /** A single booking the modular app has written or migrated, with an
      English weekday, makes the legacy booking list fail. */
  lemma LegacyListRejectsMigratedDay(bs: Bookings, order: seq<string>, id: string)
    requires Enumerates(order, bs.Keys)
    requires id in bs && bs[id].tag.Some? && bs[id].tag.value in WeekdaysAll
    ensures SortBookings(bs, order, WochentageAlle, "Montag").Failure?
  {
    LegacyListSucceedsIff(bs, order);
    WeekdayListsDisjoint(bs[id].tag.value);
  }

  /** The legacy weekly overview shows nobody on any of its days for
      bookings whose days are English weekdays. */
  lemma LegacyGridBlankOnMigratedDays(bs: Bookings, order: seq<string>, i: nat, slot: string)
    requires Enumerates(order, bs.Keys)
    requires forall id :: id in bs && bs[id].tag.Some? ==> bs[id].tag.value in WeekdaysAll
    requires i < |WochentageAlle| && slot in Zeitslots
    ensures var grid := DayGrid(bs, order, WochentageAlle[i], Zeitslots, "Unbekannt");
      slot in grid && grid[slot] == []
  {
    LegacySlotsAreModern();
    DayGridShowsBooked(bs, order, WochentageAlle[i], "Unbekannt", slot);
    var grid := DayGrid(bs, order, WochentageAlle[i], Zeitslots, "Unbekannt");
    forall id | id in bs && bs[id].tag.Some?
      ensures bs[id].tag.value != WochentageAlle[i]
    {
      WeekdayListsDisjoint(bs[id].tag.value);
    }
    assert slot !in BookedSlots(bs, WochentageAlle[i]);
    assert |grid[slot]| == 0;
  }

  // ---------------------------------------------------------------------
  // Desk configuration
  // ---------------------------------------------------------------------

  /** `0 if typ == "stundenplan" else 1`: every other type, the modular
      app's "schedule" included, opens as "vollbuchung". */
  function LegacyTypeSelectorIndex(d: Desk): (i: nat)
    ensures i < |Buchungstypen|
    ensures Buchungstypen[i] == "stundenplan" <==> d.typ == Some("stundenplan")
  {
    if d.typ == Some("stundenplan") then 0 else 1
  }

  /** `["GPU", "CPU", "Leer"].index(typ)` when listed, else 1. */
  function LegacyComputerTypeSelectorIndex(d: Desk): (i: nat)
    ensures i < |Rechnertypen|
    ensures RechnerTyp(d).Some? && RechnerTyp(d).value in Rechnertypen ==> Rechnertypen[i] == RechnerTyp(d).value
    ensures !(RechnerTyp(d).Some? && RechnerTyp(d).value in Rechnertypen) ==> i == 1
  {
    match RechnerTyp(d)
    case Some("GPU") => 0
    case Some("CPU") => 1
    case Some("Leer") => 2
    case _ => 1
  }

  /** The legacy configuration form as it opens for a desk. */
  function LegacyOpenForm(d: Desk, id: string): (r: Option<DeskForm>)
    ensures r.Some? <==> ScreenSelectorIndex(d).Some?
    ensures r.Some? ==> r.value.typ in Buchungstypen && r.value.bildschirme in ScreenCounts
    ensures r.Some? && r.value.vorhanden ==> r.value.rechnerTyp in Rechnertypen
  {
    match ScreenSelectorIndex(d)
    case None => None
    case Some(screens) =>
      var r := d.rechner.GetOr(Rechner(None, None, None, None, None));
      var vorhanden := r.vorhanden.GetOr(false);
      Some(DeskForm(
        d.name.GetOr("Tisch " + id),
        Buchungstypen[LegacyTypeSelectorIndex(d)],
        ScreenCounts[screens],
        vorhanden,
        if vorhanden then Rechnertypen[LegacyComputerTypeSelectorIndex(d)] else "Leer",
        if vorhanden then r.name.GetOr("") else "",
        if vorhanden then r.abschaltbar.GetOr(true) else false))
  }

  /** Submitting the legacy form: name, type and computer record are
      written; no field is initialised for the new type, and nothing is
      migrated. */
  function LegacySubmitDeskForm(desks: Desks, id: string, f: DeskForm): (r: Result<Desks, ConfigError>)
    ensures r.Failure? <==> id !in desks
    ensures r.Failure? ==> r.error == DeskNotFound(id)
    ensures r.Success? ==> r.value.Keys == desks.Keys
    ensures r.Success? ==> forall other :: other in desks && other != id ==> r.value[other] == desks[other]
    ensures r.Success? ==> r.value[id].name == Some(f.name) && r.value[id].typ == Some(f.typ)
    ensures r.Success? ==> r.value[id].rechner == Some(RechnerRecord(f))
    ensures r.Success? ==> r.value[id].buchungen == desks[id].buchungen
    ensures r.Success? ==> r.value[id].gebuchtVon == desks[id].gebuchtVon
    ensures r.Success? ==> r.value[id].projektName == desks[id].projektName
  {
    if id !in desks then Failure(DeskNotFound(id))
    else Success(desks[id := WriteDesk(desks[id], f)])
  }

  /** The modular submit does what the legacy submit does, and in addition
      only adds the empty fields the new type needs. */
  lemma SubmitExtendsLegacySubmit(desks: Desks, id: string, f: DeskForm)
    requires id in desks
    ensures var (l, m) := (LegacySubmitDeskForm(desks, id, f).value[id], SubmitDeskForm(desks, id, f).value[id]);
      && m.name == l.name && m.typ == l.typ && m.rechner == l.rechner
      && (l.buchungen.Some? ==> m.buchungen == l.buchungen)
      && (l.gebuchtVon.Some? ==> m.gebuchtVon == l.gebuchtVon)
      && (l.projektName.Some? ==> m.projektName == l.projektName)
      && (m.buchungen != l.buchungen ==> m.buchungen == Some(map[]))
      && (m.gebuchtVon != l.gebuchtVon ==> m.gebuchtVon == Some(""))
      && (m.projektName != l.projektName ==> m.projektName == Some(""))
  {
  }

  /** A desk as the legacy form writes it. */
  predicate LegacyFormShaped(d: Desk) {
    && d.name.Some? && d.typ.Some? && d.typ.value in Buchungstypen
    && d.rechner.Some? && LegacyRechnerShaped(d.rechner.value)
  }

  predicate LegacyRechnerShaped(r: Rechner) {
    && r.vorhanden.Some? && r.typ.Some? && r.name.Some? && r.abschaltbar.Some? && r.bildschirme.Some?
    && 0 <= r.bildschirme.value < |ScreenCounts|
    && r.typ.value in Rechnertypen
    && (!r.vorhanden.value ==> r.typ.value == "Leer" && r.name.value == "" && !r.abschaltbar.value)
  }

  /** Opening the legacy form on a desk it wrote and submitting it unchanged
      writes the desk back as it was. */
  lemma LegacyResubmitIsNoOp(desks: Desks, id: string)
    requires id in desks && LegacyFormShaped(desks[id])
    ensures LegacyOpenForm(desks[id], id).Some?
    ensures LegacySubmitDeskForm(desks, id, LegacyOpenForm(desks[id], id).value).value[id] == desks[id]
  {
  }

  /** A desk the modular app stores as "schedule", opened in the legacy
      form and submitted unchanged, is stored as "vollbuchung" and is a
      full-booking desk from the next migration on. */
  lemma LegacyFormRetypesScheduleDesk(desks: Desks, id: string)
    requires id in desks && desks[id].typ == Some("schedule")
    requires ScreenSelectorIndex(desks[id]).Some?
    ensures var d := LegacySubmitDeskForm(desks, id, LegacyOpenForm(desks[id], id).value).value[id];
      d.typ == Some("vollbuchung") && MigrateDesk(d).typ == Some("fullbooking")
  {
  }
}
