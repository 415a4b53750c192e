/** modules/utils.py: the legacy-vocabulary migration applied on every load
    and every save, and the status shown for a desk in the room view. */
module Utils {
  import opened Outcomes
  import opened Text
  import opened DeskData

  /** `WEEKDAY_MAPPING`: German to English weekday names. */
  const WeekdayMapping: map<string, string> := map[
    "Montag" := "Monday", "Dienstag" := "Tuesday", "Mittwoch" := "Wednesday",
    "Donnerstag" := "Thursday", "Freitag" := "Friday", "Samstag" := "Saturday",
    "Sonntag" := "Sunday"]

  /** `COMPUTER_MODE_MAPPING`: German to English computer usage modes. */
  const ComputerModeMapping: map<string, string> := map[
    "Nur Bildschirme" := "Screens Only",
    "Rechner aktiv (abschaltbar)" := "Computer Active (Shutdownable)",
    "Trainings-Modus (nicht abschaltbar)" := "Training Mode (Not Shutdownable)",
    "Kein Rechner" := "No Computer"]

  /** `DESK_TYPE_MAPPING`: German to internal desk type names. */
  const DeskTypeMapping: map<string, string> := map[
    "stundenplan" := "schedule", "vollbuchung" := "fullbooking", "projekt" := "projekt"]

  /** `COMPUTER_TYPE_MAPPING`: German to English computer types. */
  const ComputerTypeMapping: map<string, string> := map[
    "Leer" := "None", "GPU" := "GPU", "CPU" := "CPU", "None" := "None"]

  /** The legacy values, listed independently of the tables: what the
      migration exists to remove. */
  const GermanWeekdays: set<string> :=
    {"Montag", "Dienstag", "Mittwoch", "Donnerstag", "Freitag", "Samstag", "Sonntag"}
  const GermanComputerModes: set<string> :=
    {"Nur Bildschirme", "Rechner aktiv (abschaltbar)",
     "Trainings-Modus (nicht abschaltbar)", "Kein Rechner"}
  const LegacyDeskTypes: set<string> := {"stundenplan", "vollbuchung"}
  const LegacyComputerTypes: set<string> := {"Leer"}

  /** `if key in obj and obj[key] in table: obj[key] = table[obj[key]]`. */
  function Translate(table: map<string, string>, v: Option<string>): (r: Option<string>)
    ensures r.Some? <==> v.Some?
    ensures r == v <==> v.None? || v.value !in table || table[v.value] == v.value
    ensures r != v ==> r.value in table.Values
  {
    if v.Some? && v.value in table then Some(table[v.value]) else v
  }

  /** Every image of the table is either not a key of it or a key it maps to
      itself, so translating twice is translating once. */
  ghost predicate Settled(table: map<string, string>) {
    forall k :: k in table ==> table[k] !in table || table[table[k]] == table[k]
  }

  lemma WeekdayMappingSettled()
    ensures Settled(WeekdayMapping)
  {
  }

  lemma ComputerModeMappingSettled()
    ensures Settled(ComputerModeMapping)
  {
  }

  lemma DeskTypeMappingSettled()
    ensures Settled(DeskTypeMapping)
  {
  }

  lemma ComputerTypeMappingSettled()
    ensures Settled(ComputerTypeMapping)
  {
  }

  lemma TranslateIdempotent(table: map<string, string>, v: Option<string>)
    requires Settled(table)
    ensures Translate(table, Translate(table, v)) == Translate(table, v)
  {
  }

  /** A table leaves a value alone exactly when it is not one of the legacy
      values listed for that field. */
  lemma TranslateFixedExactlyOffLegacy(v: string)
    ensures Translate(WeekdayMapping, Some(v)) == Some(v) <==> v !in GermanWeekdays
    ensures Translate(ComputerModeMapping, Some(v)) == Some(v) <==> v !in GermanComputerModes
    ensures Translate(DeskTypeMapping, Some(v)) == Some(v) <==> v !in LegacyDeskTypes
    ensures Translate(ComputerTypeMapping, Some(v)) == Some(v) <==> v !in LegacyComputerTypes
  {
  }

  function MigrateBooking(b: Booking): (r: Booking)
    ensures r.tag.Some? == b.tag.Some? && r.rechnerModus.Some? == b.rechnerModus.Some?
    ensures b.tag.Some? && b.tag.value in WeekdayMapping ==> r.tag.value == WeekdayMapping[b.tag.value]
    ensures b.tag.Some? && b.tag.value !in WeekdayMapping ==> r.tag == b.tag
    ensures b.rechnerModus.Some? && b.rechnerModus.value in ComputerModeMapping ==>
      r.rechnerModus.value == ComputerModeMapping[b.rechnerModus.value]
    ensures b.rechnerModus.Some? && b.rechnerModus.value !in ComputerModeMapping ==>
      r.rechnerModus == b.rechnerModus
    ensures r.person == b.person && r.zeitslot == b.zeitslot
    ensures r.notizen == b.notizen && r.erstelltAm == b.erstelltAm
  {
    b.(tag := Translate(WeekdayMapping, b.tag),
       rechnerModus := Translate(ComputerModeMapping, b.rechnerModus))
  }

  function MigrateBookings(bs: Bookings): (r: Bookings)
    ensures r.Keys == bs.Keys
    ensures forall id :: id in bs ==> r[id] == MigrateBooking(bs[id])
  {
    map id | id in bs :: MigrateBooking(bs[id])
  }

  /** The migration of one desk: its type, its computer type, and the weekday
      and computer mode of each booking. */
  function MigrateDesk(d: Desk): (r: Desk)
    ensures r.typ.Some? == d.typ.Some?
    ensures d.typ.Some? && d.typ.value in DeskTypeMapping ==> r.typ.value == DeskTypeMapping[d.typ.value]
    ensures d.typ.Some? && d.typ.value !in DeskTypeMapping ==> r.typ == d.typ
    ensures r.rechner.Some? == d.rechner.Some?
    ensures d.rechner.Some? ==>
      var (rc, rc') := (d.rechner.value, r.rechner.value);
      && rc'.typ.Some? == rc.typ.Some?
      && (rc.typ.Some? && rc.typ.value in ComputerTypeMapping ==> rc'.typ.value == ComputerTypeMapping[rc.typ.value])
      && (rc.typ.Some? && rc.typ.value !in ComputerTypeMapping ==> rc'.typ == rc.typ)
      && rc'.vorhanden == rc.vorhanden && rc'.name == rc.name
      && rc'.abschaltbar == rc.abschaltbar && rc'.bildschirme == rc.bildschirme
    ensures r.buchungen.Some? == d.buchungen.Some?
    ensures d.buchungen.Some? ==> r.buchungen.value == MigrateBookings(d.buchungen.value)
    ensures r.name == d.name && r.gebuchtVon == d.gebuchtVon && r.projektName == d.projektName
  {
    d.(typ := Translate(DeskTypeMapping, d.typ),
       rechner := if d.rechner.Some?
                  then Some(d.rechner.value.(typ := Translate(ComputerTypeMapping, d.rechner.value.typ)))
                  else None,
       buchungen := if d.buchungen.Some? then Some(MigrateBookings(d.buchungen.value)) else None)
  }

  /** `migrate_weekdays`: every desk migrated, the set of desk ids kept; a
      document without `tische` is returned as it is. */
  function Migrate(doc: Document): (r: Document)
    ensures r.tische.Some? == doc.tische.Some?
    ensures doc.tische.Some? ==> r.tische.value.Keys == doc.tische.value.Keys
    ensures doc.tische.Some? ==>
      forall id :: id in doc.tische.value ==> r.tische.value[id] == MigrateDesk(doc.tische.value[id])
  {
    match doc.tische
    case None => doc
    case Some(ds) => Document(Some(map id | id in ds :: MigrateDesk(ds[id])))
  }

  predicate BookingLegacyFree(b: Booking) {
    && (b.tag.Some? ==> b.tag.value !in GermanWeekdays)
    && (b.rechnerModus.Some? ==> b.rechnerModus.value !in GermanComputerModes)
  }

  predicate DeskLegacyFree(d: Desk) {
    && (d.typ.Some? ==> d.typ.value !in LegacyDeskTypes)
    && (d.rechner.Some? && d.rechner.value.typ.Some? ==> d.rechner.value.typ.value !in LegacyComputerTypes)
    && (d.buchungen.Some? ==>
          forall id :: id in d.buchungen.value ==> BookingLegacyFree(d.buchungen.value[id]))
  }

  /** No field of the document carries a legacy (German) enumeration value. */
  predicate LegacyFree(doc: Document) {
    doc.tische.Some? ==> forall id :: id in doc.tische.value ==> DeskLegacyFree(doc.tische.value[id])
  }

  lemma MigrateBookingIdempotent(b: Booking)
    ensures MigrateBooking(MigrateBooking(b)) == MigrateBooking(b)
  {
    WeekdayMappingSettled();
    ComputerModeMappingSettled();
    TranslateIdempotent(WeekdayMapping, b.tag);
    TranslateIdempotent(ComputerModeMapping, b.rechnerModus);
  }

  lemma MigrateDeskIdempotent(d: Desk)
    ensures MigrateDesk(MigrateDesk(d)) == MigrateDesk(d)
  {
    DeskTypeMappingSettled();
    ComputerTypeMappingSettled();
    TranslateIdempotent(DeskTypeMapping, d.typ);
    if d.rechner.Some? {
      TranslateIdempotent(ComputerTypeMapping, d.rechner.value.typ);
    }
    if d.buchungen.Some? {
      var bs := d.buchungen.value;
      forall id | id in bs
        ensures MigrateBooking(MigrateBooking(bs[id])) == MigrateBooking(bs[id])
      {
        MigrateBookingIdempotent(bs[id]);
      }
      assert MigrateBookings(MigrateBookings(bs)) == MigrateBookings(bs);
    }
  }

  /** Migrating twice is migrating once. */
  lemma MigrateIdempotent(doc: Document)
    ensures Migrate(Migrate(doc)) == Migrate(doc)
  {
    if doc.tische.Some? {
      var ds := doc.tische.value;
      forall id | id in ds
        ensures MigrateDesk(MigrateDesk(ds[id])) == MigrateDesk(ds[id])
      {
        MigrateDeskIdempotent(ds[id]);
      }
      assert Migrate(Migrate(doc)).tische.value == Migrate(doc).tische.value;
    }
  }

  lemma MigrateBookingFixedIff(b: Booking)
    ensures MigrateBooking(b) == b <==> BookingLegacyFree(b)
  {
    if b.tag.Some? {
      TranslateFixedExactlyOffLegacy(b.tag.value);
    }
    if b.rechnerModus.Some? {
      TranslateFixedExactlyOffLegacy(b.rechnerModus.value);
    }
  }

  lemma MigrateDeskFixedIff(d: Desk)
    ensures MigrateDesk(d) == d <==> DeskLegacyFree(d)
  {
    if d.typ.Some? {
      TranslateFixedExactlyOffLegacy(d.typ.value);
    }
    if d.rechner.Some? && d.rechner.value.typ.Some? {
      TranslateFixedExactlyOffLegacy(d.rechner.value.typ.value);
    }
    if d.buchungen.Some? {
      var bs := d.buchungen.value;
      forall id | id in bs
        ensures MigrateBooking(bs[id]) == bs[id] <==> BookingLegacyFree(bs[id])
      {
        MigrateBookingFixedIff(bs[id]);
      }
      if forall id :: id in bs ==> BookingLegacyFree(bs[id]) {
        assert MigrateBookings(bs) == bs;
      } else {
        var id :| id in bs && !BookingLegacyFree(bs[id]);
        assert MigrateBookings(bs)[id] != bs[id];
      }
    }
  }

  /** Migration leaves a document unchanged exactly when it holds no legacy
      value: it rewrites nothing else. */
  lemma MigrateFixedIff(doc: Document)
    ensures Migrate(doc) == doc <==> LegacyFree(doc)
  {
    if doc.tische.Some? {
      var ds := doc.tische.value;
      forall id | id in ds
        ensures MigrateDesk(ds[id]) == ds[id] <==> DeskLegacyFree(ds[id])
      {
        MigrateDeskFixedIff(ds[id]);
      }
      if LegacyFree(doc) {
        assert Migrate(doc).tische.value == ds;
      } else {
        var id :| id in ds && !DeskLegacyFree(ds[id]);
        assert Migrate(doc).tische.value[id] != ds[id];
      }
    }
  }

  /** After migration no booking names a German weekday or mode, no desk is
      of type "stundenplan" or "vollbuchung", and no computer is "Leer". */
  lemma MigrateRemovesLegacy(doc: Document)
    ensures LegacyFree(Migrate(doc))
  {
    MigrateIdempotent(doc);
    MigrateFixedIff(Migrate(doc));
  }

  /** `load_config`: a missing file yields an empty document, an existing one
      is migrated as it is read. */
  function LoadConfig(stored: Option<Document>): (c: Document)
    ensures stored.None? ==> c == Document(Some(map[]))
    ensures LegacyFree(c)
    ensures stored.Some? ==> Migrate(c) == c
  {
    match stored
    case None => Document(Some(map[]))
    case Some(doc) =>
      MigrateRemovesLegacy(doc);
      MigrateIdempotent(doc);
      Migrate(doc)
  }

  /** `save_config`: the document that reaches the file is the migrated
      in-memory document, so it holds no legacy value and migrating it again
      changes nothing. */
  function SaveConfig(c: Document): (written: Document)
    ensures LegacyFree(written)
    ensures Migrate(written) == written
    ensures written.tische.Some? == c.tische.Some?
    ensures c.tische.Some? ==> written.tische.value.Keys == c.tische.value.Keys
    // each written desk is the input desk, migrated
    ensures c.tische.Some? ==> forall id :: id in c.tische.value ==>
      written.tische.value[id] == MigrateDesk(c.tische.value[id])
    ensures c.tische.None? ==> written == c
    ensures LegacyFree(c) ==> written == c
  {
    MigrateRemovesLegacy(c);
    MigrateIdempotent(c);
    MigrateFixedIff(c);
    Migrate(c)
  }

  /** Loading what was saved gives back exactly what was written. */
  lemma LoadAfterSave(c: Document)
    ensures LoadConfig(Some(SaveConfig(c))) == SaveConfig(c)
  {
  }

  /** The room view's traffic light for a desk. */
  datatype Indicator = Project | FullyBooked | PartiallyBooked | Free

  /** `get_desk_status`: project desks first, then an occupied full-booking
      desk, then any bookings at all, else free. A missing type counts as
      "schedule", missing fields as empty. */
  function DeskStatus(d: Desk): (r: (Indicator, string))
    ensures r.0 == Project <==> d.typ == Some("projekt")
    ensures r.0 == FullyBooked <==> d.typ == Some("fullbooking") && d.gebuchtVon.GetOr("") != ""
    ensures r.0 == PartiallyBooked <==>
      d.typ != Some("projekt") && !(d.typ == Some("fullbooking") && d.gebuchtVon.GetOr("") != "")
      && |BookingsOf(d)| > 0
    ensures r.0 == Project && d.projektName.GetOr("") == "" ==> r.1 == "Project (unassigned)"
    ensures r.0 == Project && d.projektName.GetOr("") != "" ==>
      r.1 == "Project: " + d.projektName.value +
             (if d.gebuchtVon.GetOr("") != "" then "\nContact: " + d.gebuchtVon.value else "")
    ensures r.0 == FullyBooked ==> r.1 == "Booked: " + d.gebuchtVon.value
    ensures r.0 == PartiallyBooked ==> r.1 == NatToString(|BookingsOf(d)|) + " Bookings"
    ensures r.0 == Free ==> r.1 == "Free"
  {
    var buchungen := BookingsOf(d);
    var gebuchtVon := d.gebuchtVon.GetOr("");
    var projektName := d.projektName.GetOr("");
    var typ := d.typ.GetOr("schedule");
    if typ == "projekt" then
      if projektName != "" then
        (Project, "Project: " + projektName + (if gebuchtVon != "" then "\nContact: " + gebuchtVon else ""))
      else
        (Project, "Project (unassigned)")
    else if typ == "fullbooking" && gebuchtVon != "" then
      (FullyBooked, "Booked: " + gebuchtVon)
    else if |buchungen| > 0 then
      (PartiallyBooked, NatToString(|buchungen|) + " Bookings")
    else
      (Free, "Free")
  }

  /** A project desk shows the project indicator whatever its bookings and
      occupant, and its text does not depend on its bookings. */
  lemma ProjectStatusIgnoresBookings(d: Desk, bs: Option<Bookings>)
    requires d.typ == Some("projekt")
    ensures DeskStatus(d.(buchungen := bs)) == DeskStatus(d)
    ensures DeskStatus(d).0 == Project
  {
  }

  /** What the migration makes of a desk type, as far as the status and the
      view dispatch tell types apart. */
  lemma MigratedType(d: Desk)
    ensures MigrateDesk(d).typ == Some("projekt") <==> d.typ == Some("projekt")
    ensures MigrateDesk(d).typ == Some("fullbooking") <==> d.typ == Some("fullbooking") || d.typ == Some("vollbuchung")
    ensures MigrateDesk(d).typ.GetOr("schedule") == "schedule" <==>
      d.typ.GetOr("schedule") == "schedule" || d.typ == Some("stundenplan")
  {
  }

  /** Migration changes the status of a desk only when it is a legacy
      "vollbuchung" desk with an occupant, which it turns fully booked. */
  lemma MigrateDeskStatus(d: Desk)
    ensures DeskStatus(MigrateDesk(d)) != DeskStatus(d) <==>
      d.typ == Some("vollbuchung") && d.gebuchtVon.GetOr("") != ""
  {
    assert |BookingsOf(MigrateDesk(d))| == |BookingsOf(d)| by {
      assert BookingsOf(MigrateDesk(d)).Keys == BookingsOf(d).Keys;
    }
    MigratedType(d);
  }
}
