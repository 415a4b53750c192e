/** The persisted configuration document (`data/tische_config.json`) as
    immutable values. Every JSON key a record may or may not carry is an
    `Option`, so "key present" and "key absent" stay distinguishable, as
    they are to the program's `in` tests and `.get` defaults. */
module DeskData {
  import opened Outcomes

  /** A desk's `rechner` object. */
  datatype Rechner = Rechner(
    vorhanden: Option<bool>,     // a computer is present
    typ: Option<string>,         // "GPU" | "CPU" | "None" (legacy "Leer")
    name: Option<string>,
    abschaltbar: Option<bool>,   // may be switched off
    bildschirme: Option<int>)    // number of screens

  /** One entry of a desk's `buchungen` object. */
  datatype Booking = Booking(
    person: Option<string>,
    tag: Option<string>,           // weekday
    zeitslot: Option<string>,      // "HH:00-HH:00"
    rechnerModus: Option<string>,  // computer usage mode
    notizen: Option<string>,       // notes
    erstelltAm: Option<string>)    // creation time, "YYYY-MM-DD HH:MM:SS"

  /** Booking id to booking. */
  type Bookings = map<string, Booking>

  /** One entry of the document's `tische` object. */
  datatype Desk = Desk(
    name: Option<string>,
    typ: Option<string>,             // "schedule" | "fullbooking" | "projekt"
    rechner: Option<Rechner>,
    buchungen: Option<Bookings>,     // hourly bookings
    gebuchtVon: Option<string>,      // occupant, or project contact
    projektName: Option<string>)

  /** Desk id (a decimal string) to desk. */
  type Desks = map<string, Desk>

  /** The whole document; `tische` may be missing from a hand-written file. */
  datatype Document = Document(tische: Option<Desks>)

  /** `tisch_data.get("buchungen", {})`. */
  function BookingsOf(d: Desk): Bookings {
    d.buchungen.GetOr(map[])
  }

  /** `tisch_data.get("rechner", {}).get("vorhanden", False)`. */
  predicate HasComputer(d: Desk) {
    d.rechner.Some? && d.rechner.value.vorhanden == Some(true)
  }

  /** Booking `b` occupies slot `zeitslot` on day `tag`. */
  predicate Holds(b: Booking, tag: string, zeitslot: string) {
    b.tag == Some(tag) && b.zeitslot == Some(zeitslot)
  }

  /** No two bookings of one desk occupy the same (day, slot) pair. */
  predicate NoDoubleBooking(bs: Bookings) {
    forall i, j :: i in bs && j in bs && i != j && bs[i].tag.Some? && bs[i].zeitslot.Some? ==>
      !Holds(bs[j], bs[i].tag.value, bs[i].zeitslot.value)
  }
}
