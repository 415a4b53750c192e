/** modules/desk_config.py: the desk configuration form — the values it
    starts from, the record update on submit, and the type-dependent
    initialisation of the fields a desk of that type needs. */
module DeskConfig {
  import opened Outcomes
  import opened Config
  import opened DeskData
  import opened Utils

  /** The form's widget values on submit. The computer widgets are only
      shown when `vorhanden` is ticked. */
  datatype DeskForm = DeskForm(
    name: string,
    typ: string,
    bildschirme: int,
    vorhanden: bool,
    rechnerTyp: string,
    rechnerName: string,
    abschaltbar: bool)

  /** The selected desk id is not a key of the document (an id `str(int(k))`
      rewrote, such as "07" shown as "7"). */
  datatype ConfigError = DeskNotFound(id: string)

  /** The `rechner` object written on submit: the form's values, or the
      no-computer defaults "Leer", "" and false; the screen count either way. */
  function RechnerRecord(f: DeskForm): (r: Rechner)
    ensures r.vorhanden == Some(f.vorhanden) && r.bildschirme == Some(f.bildschirme)
    ensures f.vorhanden ==> r.typ == Some(f.rechnerTyp) && r.name == Some(f.rechnerName) && r.abschaltbar == Some(f.abschaltbar)
    ensures !f.vorhanden ==> r.typ == Some("Leer") && r.name == Some("") && r.abschaltbar == Some(false)
  {
    Rechner(Some(f.vorhanden),
            Some(if f.vorhanden then f.rechnerTyp else "Leer"),
            Some(if f.vorhanden then f.rechnerName else ""),
            Some(if f.vorhanden then f.abschaltbar else false),
            Some(f.bildschirme))
  }

  /** The three assignments of the submit branch: name, type and the whole
      computer record; every other field of the desk is kept. */
  function WriteDesk(d: Desk, f: DeskForm): Desk {
    d.(name := Some(f.name), typ := Some(f.typ), rechner := Some(RechnerRecord(f)))
  }

  /** The type-dependent initialisation: a field the type needs is added,
      empty, only when it is missing. */
  function InitFields(d: Desk, typ: string): (r: Desk)
    ensures r.name == d.name && r.typ == d.typ && r.rechner == d.rechner
    ensures d.buchungen.Some? ==> r.buchungen == d.buchungen
    ensures d.gebuchtVon.Some? ==> r.gebuchtVon == d.gebuchtVon
    ensures d.projektName.Some? ==> r.projektName == d.projektName
    ensures typ == "schedule" ==> r.buchungen.Some?
    ensures typ == "fullbooking" || typ == "projekt" ==> r.gebuchtVon.Some?
    ensures typ == "projekt" ==> r.projektName.Some?
    ensures r.buchungen != d.buchungen ==> typ == "schedule" && r.buchungen == Some(map[])
    ensures r.gebuchtVon != d.gebuchtVon ==> (typ == "fullbooking" || typ == "projekt") && r.gebuchtVon == Some("")
    ensures r.projektName != d.projektName ==> typ == "projekt" && r.projektName == Some("")
  {
    if typ == "schedule" then
      if d.buchungen.None? then d.(buchungen := Some(map[])) else d
    else if typ == "fullbooking" then
      if d.gebuchtVon.None? then d.(gebuchtVon := Some("")) else d
    else if typ == "projekt" then
      var d1 := if d.projektName.None? then d.(projektName := Some("")) else d;
      if d1.gebuchtVon.None? then d1.(gebuchtVon := Some("")) else d1
    else d
  }

  /** Submitting the form for desk `id`. */
  function SubmitDeskForm(desks: Desks, id: string, f: DeskForm): (r: Result<Desks, ConfigError>)
    ensures r.Failure? <==> id !in desks
    ensures r.Failure? ==> r.error == DeskNotFound(id)
    ensures r.Success? ==> r.value.Keys == desks.Keys
    ensures r.Success? ==> forall other :: other in desks && other != id ==> r.value[other] == desks[other]
    ensures r.Success? ==> r.value[id].name == Some(f.name) && r.value[id].typ == Some(f.typ)
    ensures r.Success? ==> r.value[id].rechner == Some(RechnerRecord(f))
    // the type's own fields exist afterwards
    ensures r.Success? && f.typ == "schedule" ==> r.value[id].buchungen.Some?
    ensures r.Success? && f.typ == "fullbooking" ==> r.value[id].gebuchtVon.Some?
    ensures r.Success? && f.typ == "projekt" ==> r.value[id].projektName.Some? && r.value[id].gebuchtVon.Some?
    // nothing is removed or overwritten: stale fields of an earlier type survive
    ensures r.Success? ==> desks[id].buchungen.Some? ==> r.value[id].buchungen == desks[id].buchungen
    ensures r.Success? ==> desks[id].gebuchtVon.Some? ==> r.value[id].gebuchtVon == desks[id].gebuchtVon
    ensures r.Success? ==> desks[id].projektName.Some? ==> r.value[id].projektName == desks[id].projektName
    // and an initialised field starts empty
    ensures r.Success? && desks[id].buchungen.None? && r.value[id].buchungen.Some? ==>
      f.typ == "schedule" && r.value[id].buchungen == Some(map[])
    ensures r.Success? && desks[id].gebuchtVon.None? && r.value[id].gebuchtVon.Some? ==>
      (f.typ == "fullbooking" || f.typ == "projekt") && r.value[id].gebuchtVon == Some("")
    ensures r.Success? && desks[id].projektName.None? && r.value[id].projektName.Some? ==>
      f.typ == "projekt" && r.value[id].projektName == Some("")
  {
    if id !in desks then Failure(DeskNotFound(id))
    else Success(desks[id := InitFields(WriteDesk(desks[id], f), f.typ)])
  }

  /** Submitting the same form twice is submitting it once. */
  lemma SubmitIdempotent(desks: Desks, id: string, f: DeskForm)
    requires id in desks
    ensures SubmitDeskForm(SubmitDeskForm(desks, id, f).value, id, f) == SubmitDeskForm(desks, id, f)
  {
    var d := InitFields(WriteDesk(desks[id], f), f.typ);
    assert WriteDesk(d, f) == d;
    assert InitFields(d, f.typ) == d;
    assert desks[id := d][id := d] == desks[id := d];
  }

  /** Changing a desk's type keeps its old payload: a schedule desk with
      bookings turned into a full-booking desk, with no occupant entered,
      keeps its bookings and still shows as partly booked. */
  lemma RetypeKeepsStaleBookings(desks: Desks, id: string, f: DeskForm)
    requires id in desks && |BookingsOf(desks[id])| > 0 && desks[id].gebuchtVon.None?
    requires f.typ == "fullbooking"
    ensures var d := SubmitDeskForm(desks, id, f).value[id];
      BookingsOf(d) == BookingsOf(desks[id]) && DeskStatus(d).0 == PartiallyBooked
  {
  }

  // ---------------------------------------------------------------------
  // The values the form starts from
  // ---------------------------------------------------------------------

  /** `DESK_TYPES.index(typ) if typ in DESK_TYPES else 0`. */
  function TypeSelectorIndex(d: Desk): (i: nat)
    ensures i < |DeskTypes|
    ensures d.typ.Some? && d.typ.value in DeskTypes ==> DeskTypes[i] == d.typ.value
    ensures !(d.typ.Some? && d.typ.value in DeskTypes) ==> i == 0
  {
    if d.typ == Some("schedule") then 0
    else if d.typ == Some("fullbooking") then 1
    else if d.typ == Some("projekt") then 2
    else 0
  }

  /** `COMPUTER_TYPES.index(typ) if typ in COMPUTER_TYPES else 1`, on the
      desk's `rechner.typ`. */
  function ComputerTypeSelectorIndex(d: Desk): (i: nat)
    ensures i < |ComputerTypes|
    ensures RechnerTyp(d).Some? && RechnerTyp(d).value in ComputerTypes ==> ComputerTypes[i] == RechnerTyp(d).value
    ensures !(RechnerTyp(d).Some? && RechnerTyp(d).value in ComputerTypes) ==> i == 1
  {
    match RechnerTyp(d)
    case Some("GPU") => 0
    case Some("CPU") => 1
    case Some("None") => 2
    case _ => 1
  }

  /** `tisch_data.get("rechner", {}).get("typ")`. */
  function RechnerTyp(d: Desk): Option<string> {
    if d.rechner.Some? then d.rechner.value.typ else None
  }

  /** The screen selector's index is the stored count (default 0); the
      widget accepts only an index of `SCREEN_COUNTS`, so any other count
      stops the page (`None`). */
  function ScreenSelectorIndex(d: Desk): (r: Option<nat>)
    ensures var n := if d.rechner.Some? then d.rechner.value.bildschirme.GetOr(0) else 0;
      (r.Some? <==> 0 <= n < |ScreenCounts|) && (r.Some? ==> r.value < |ScreenCounts| && ScreenCounts[r.value] == n)
  {
    var n := if d.rechner.Some? then d.rechner.value.bildschirme.GetOr(0) else 0;
    if 0 <= n < |ScreenCounts| then Some(n) else None
  }

  /** The form as it opens for a desk: each widget shows the stored value or
      its default, and an unticked computer box puts the no-computer values
      into the form. A stored screen count the selector rejects stops the
      page before the form exists (`None`). */
  function OpenForm(d: Desk, id: string): (r: Option<DeskForm>)
    ensures r.Some? <==> ScreenSelectorIndex(d).Some?
    ensures r.Some? ==> r.value.typ in DeskTypes && r.value.bildschirme in ScreenCounts
    ensures r.Some? && r.value.vorhanden ==> r.value.rechnerTyp in ComputerTypes
  {
    match ScreenSelectorIndex(d)
    case None => None
    case Some(screens) =>
      var r := d.rechner.GetOr(Rechner(None, None, None, None, None));
      var vorhanden := r.vorhanden.GetOr(false);
      Some(DeskForm(
        d.name.GetOr("Desk " + id),
        DeskTypes[TypeSelectorIndex(d)],
        ScreenCounts[screens],
        vorhanden,
        if vorhanden then ComputerTypes[ComputerTypeSelectorIndex(d)] else "Leer",
        if vorhanden then r.name.GetOr("") else "",
        if vorhanden then r.abschaltbar.GetOr(true) else false))
  }

  /** A desk as the form writes it after migration: all fields present, a
      known type, a known computer type, a listed screen count, and the
      no-computer values when there is no computer. */
  predicate FormShaped(d: Desk) {
    && d.name.Some? && d.typ.Some? && d.typ.value in DeskTypes
    && d.rechner.Some? && RechnerShaped(d.rechner.value)
    && (d.typ.value == "schedule" ==> d.buchungen.Some?)
    && (d.typ.value == "fullbooking" ==> d.gebuchtVon.Some?)
    && (d.typ.value == "projekt" ==> d.projektName.Some? && d.gebuchtVon.Some?)
  }

  predicate RechnerShaped(r: Rechner) {
    && r.vorhanden.Some? && r.typ.Some? && r.name.Some? && r.abschaltbar.Some? && r.bildschirme.Some?
    && 0 <= r.bildschirme.value < |ScreenCounts|
    && r.typ.value in ComputerTypes
    && (!r.vorhanden.value ==> r.typ.value == "None" && r.name.value == "" && !r.abschaltbar.value)
  }

  /** Opening the form and submitting it unchanged writes back the desk as it
      was, once the save has migrated "Leer" to "None". */
  lemma ResubmitIsNoOp(desks: Desks, id: string)
    requires id in desks && FormShaped(desks[id]) && DeskLegacyFree(desks[id])
    ensures OpenForm(desks[id], id).Some?
    ensures MigrateDesk(SubmitDeskForm(desks, id, OpenForm(desks[id], id).value).value[id]) == desks[id]
  {
    var d := desks[id];
    var f := OpenForm(d, id).value;
    var w := SubmitDeskForm(desks, id, f).value[id];
    assert w.rechner.value.typ == Some(if d.rechner.value.vorhanden.value then d.rechner.value.typ.value else "Leer");
    assert MigrateBookings(BookingsOf(d)) == BookingsOf(d) by {
      MigrateDeskFixedIff(d);
    }
    MigrateDeskFixedIff(d);
  }
}
