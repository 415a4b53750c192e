# G120 desk planning — a Dafny model

G120_Plannung is a Streamlit app for the desks of room G120. One JSON
document (`tische`) holds a record per desk:
- its name and booking type (`schedule`, `fullbooking` or `projekt`);
- its computer (`rechner`: present, type, name, whether it may be shut down, screen count);
- the type's payload: the hourly bookings (`buchungen`), the occupant (`gebucht_von`) or the project (`projekt_name`).

The modular app (`modules/`) loads and saves the document through a
migration that rewrites the German vocabulary of the older single-file app
(`tischplanung_app.py`) into English. Both apps are still in the
repository and work on the same file.

This project models the data model and the pure transformations of both
apps and proves what they guarantee.

**Vocabulary** (`Config`, `LegacyApp`)
- Weekdays and the generated `"HH:00-HH:00"` slot strings.
- The desk, computer and screen enumerations.

**Migration** (`Utils`)
- The four lookup tables and `migrate_weekdays`.
- Migration before every write and after every read.

**Status** (`Utils.DeskStatus`, `LegacyApp.LegacyDeskStatus`)
- The room view's traffic light and text.

**Schedule booking** (`DeskPlanning`)
- The booked (day, slot) set and the button grid's selection.
- The `"{day}_{slot}"` key and its `rsplit('_', 1)` decoding.
- The batch save, deleting a booking, and the ordered booking list.
- The weekly overview.
- The occupant and project forms.

**Desk configuration** (`DeskConfig`, `LegacyApp`)
- The form's starting values and selector fallbacks.
- The record written on submit, and the lazy type-dependent initialisation.

**Desk selector** (`Registry`)
- Desk ids sorted by integer value, used by all four selectors.

The legacy app's click, occupant save, delete and weekly overview are the
`DeskPlanning` members applied to the legacy constants:
- the `WOCHENTAGE` and `ZEITSLOTS` lists;
- the no-computer mode `"Kein Rechner"`;
- `"Montag"` as the default day;
- `"Unbekannt"` for a booking without a person.

So `DeskPlanning.DeleteOnDesk`, `SaveOccupant`, `ClickSlot` and `DayGrid`
also model `tischplanung_app.py:724-727`, `:472`, `:602-628` and `:505-515`.

Python's dict and set iteration order appears as an explicit list:
- `order` for the keys of `buchungen`;
- `order` for the elements of `selected_slots`.

Every `datetime.now()` reading is a `Stamp` parameter.

Two behaviours of the code are worth stating up front:
- **Reconfiguring a desk only adds fields.** Submitting the configuration
  form adds the new type's field, empty, when it is missing, and never
  removes or clears the previous type's payload (modules/desk_config.py:115-126,
  `DeskConfig.SubmitDeskForm`). Old bookings therefore keep a desk retyped
  to "fullbooking" "partly booked" (`DeskConfig.RetypeKeepsStaleBookings`).
- **Saving an empty occupant keeps the bookings' say.** The occupant save
  only writes `gebucht_von` (modules/desk_planning.py:111). A full-booking
  desk saved with an empty name shows "Free" only when it has no leftover
  bookings (modules/utils.py:115-120, `DeskPlanning.SaveOccupantStatus`).

## Model

| member | source | states |
|---|---|---|
| `Config.WeekdaysPrefix` | modules/config.py:9-10 | The five booking weekdays are the first five of the seven display weekdays, and all seven are distinct. |
| `Config.SlotString` | modules/config.py:13-14 | For an hour below 99 the slot string has eleven characters; its first two denote the hour and characters 6-7 the next hour. |
| `Config.TimeslotShape` | modules/config.py:13-14 | There are ten bookable slots (hours 8 to 17) and twelve display slots (hours 8 to 19). The bookable list is a prefix of the display list. |
| `Config.TimeslotEnds` | modules/config.py:13-14 | The zero-padded format gives "08:00-09:00" as the first slot, "17:00-18:00" as the last bookable one and "19:00-20:00" as the last displayed one. |
| `Config.SlotChars` | modules/config.py:13 | A slot string has exactly eleven characters: two digits of the hour, ":00-", two digits of the next hour, ":00". |
| `Config.FirstSlot` | modules/config.py:13 | The first slot reads "08:00-09:00". |
| `Config.LastBookableSlot` | modules/config.py:13 | The last bookable slot reads "17:00-18:00". |
| `Config.LastSlot` | modules/config.py:14 | The last displayed slot reads "19:00-20:00". |
| `Config.TimeslotsHaveNoUnderscore` | modules/config.py:14 | No display slot contains `_`. |
| `Config.TimeslotsAscending` | modules/config.py:14 | The display slots are strictly ascending as strings, hence pairwise distinct. |
| `Config.SlotPairAscending` | modules/config.py:14 | Of two display slots, the earlier one in the list sorts first as a string. |
| `Config.SlotHasNoUnderscore` | modules/config.py:13 | No slot string contains `_`, the separator of selection keys. |
| `Config.SlotStringInjective` | modules/config.py:13-14 | Different hours give different slot strings. |
| `Config.SlotOrderIsHourOrder` | modules/config.py:13-14 | Comparing slot strings as Python strings orders them exactly by hour. |
| `Config.TimeslotsWellFormed` | modules/config.py:13-14 | Every slot of both lists is free of `_`. The display slots are pairwise distinct and in ascending string order. |
| `Config.ScreenCountsAreIndices` | modules/config.py:23 | Each screen count equals its own position in `SCREEN_COUNTS`, so a stored count is a valid selector index. |
| `Text.Pad2Digits` | modules/config.py:13 | The `02d` format of an hour below 100 is its tens digit followed by its units digit. |
| `Text.NatToString` | modules/desk_planning.py:19 | `str(n)` is a decimal string without leading zero, one character long exactly for n below 10. |
| `Text.ParseNat` | modules/desk_config.py:18 | `int(t)` of a digit string is below 10 to the number of digits, and at least 10 to one less when the first digit is not zero. |
| `Text.Pad2` | modules/config.py:13 | `f"{h:02d}"` is a digit string of at least two characters that denotes `h`, exactly two for `h` below 100. |
| `Text.ParseNatToString` | modules/desk_planning.py:18-19 | `int(str(n)) == n` for every natural number. |
| `Text.ToStringParseNat` | modules/desk_planning.py:18-19 | `str(int(s)) == s` for a decimal string without leading zero. |
| `Text.ParseNatInjective` | modules/desk_planning.py:18-19 | Two such strings with the same integer value are the same string. |
| `Text.LastIndexOf` | modules/desk_planning.py:350 | The result is the position of the last occurrence of the character. It is absent exactly when the character does not occur. |
| `Text.RSplitOnce` | modules/desk_planning.py:350 | `rsplit(c, 1)` fails exactly when `c` does not occur; the right part holds no `c`, and the two parts are one character shorter than the string. |
| `Text.RSplitJoin` | modules/desk_planning.py:350 | `rsplit(c, 1)` of `a + c + b`, with no `c` in `b`, gives back `(a, b)`. |
| `Text.RSplitRejoin` | modules/desk_planning.py:350 | A successful `rsplit(c, 1)` gives two parts that join around `c` to the original string, and the right part holds no `c`. |
| `Text.StrLt` | modules/desk_planning.py:386 | Python's string `<` never relates a string to itself. |
| `Text.StrLtIrreflexive` | modules/desk_planning.py:386 | No string sorts before itself. |
| `Text.StrLtTransitive` | modules/desk_planning.py:386 | String order is transitive. |
| `Text.StrLtTotal` | modules/desk_planning.py:386 | Of two different strings, one sorts before the other. |
| `Text.StrLtAsymmetric` | modules/desk_planning.py:386 | Two strings never each sort before the other. |
| `Registry.InsertNat` | modules/desk_planning.py:18 | Inserting into an ascending list keeps it ascending and adds exactly the inserted number. |
| `Registry.SortNats` | modules/desk_planning.py:18 | The result is ascending and a permutation of the input numbers. |
| `Registry.ParseAll` | modules/desk_planning.py:18 | Each key becomes its integer value, position by position. |
| `Registry.RenderAll` | modules/desk_planning.py:19 | Each number becomes its decimal string, position by position. |
| `Registry.DeskOptions` | modules/desk_planning.py:18-19 | There is one option per desk key. Every option is a canonical decimal string, the options ascend by integer value, and their values are the keys' values, each as often as it occurs. |
| `Registry.ParseRendered` | modules/desk_planning.py:18-19 | `int(str(n))` over a whole list gives the list back. |
| `Registry.SortedDistinctIsStrict` | modules/desk_planning.py:18 | Sorting numbers without repeats gives a strictly ascending list. |
| `Registry.DistinctCountsAtMostOne` | modules/desk_planning.py:18-19 | In a list without repeats every value occurs at most once. |
| `Registry.RepeatCountsTwice` | modules/desk_planning.py:18-19 | A value at two positions occurs at least twice. |
| `Registry.KeysAreOptions` | modules/desk_config.py:18-19 | Every canonical desk key appears in the option list. |
| `Registry.OptionsAreKeys` | modules/desk_config.py:18-19 | Every option is a desk key, so the lookup of the selected option finds its desk. |
| `Registry.OptionsStrictlyAscending` | tischplanung_app.py:87-88 | Distinct canonical keys give options in strictly increasing numeric order. |
| `Registry.DeskOptionsAreKeys` | tischplanung_app.py:324-325 | The options are exactly the keys, in strictly increasing numeric order. |
| `Registry.NineBeforeTen` | modules/desk_planning.py:17-19 | Desk "9" is listed before desk "10". |
| `Utils.Translate` | modules/utils.py:64-65 | A table lookup keeps a value's presence; it leaves the value unchanged exactly when the value is absent, not a key, or a key mapped to itself; any changed value is one of the table's images. |
| `Utils.WeekdayMappingSettled` | modules/utils.py:11-19 | Every English weekday the table produces is not one of its keys. |
| `Utils.ComputerModeMappingSettled` | modules/utils.py:22-27 | Every mode the table produces is not one of its keys. |
| `Utils.DeskTypeMappingSettled` | modules/utils.py:30-34 | Every type the table produces is a key only if the table maps it to itself ("projekt"). |
| `Utils.ComputerTypeMappingSettled` | modules/utils.py:37-42 | Every computer type the table produces maps to itself. |
| `Utils.TranslateIdempotent` | modules/utils.py:64-65 | For such a table, translating a field twice is translating it once. |
| `Utils.TranslateFixedExactlyOffLegacy` | modules/utils.py:11-42 | Each table leaves a value unchanged exactly when it is not one of the legacy German values. |
| `Utils.MigrateBooking` | modules/utils.py:77-83 | The weekday is rewritten only when it is a key of the weekday table, and the mode only when it is a key of the mode table. Presence of each field and all other fields are kept. |
| `Utils.MigrateBookings` | modules/utils.py:74-83 | The booking ids are kept, and each booking is migrated. |
| `Utils.MigrateDesk` | modules/utils.py:62-83 | The desk type and the computer type are rewritten only when they are table keys. The bookings are migrated. Name, occupant, project and every other computer field are kept. |
| `Utils.Migrate` | modules/utils.py:58-85 | The set of desk ids is kept and every desk is migrated. A document without `tische` is returned unchanged. |
| `Utils.MigrateBookingIdempotent` | modules/utils.py:77-83 | Migrating a booking twice is migrating it once. |
| `Utils.MigrateDeskIdempotent` | modules/utils.py:62-83 | Migrating a desk twice is migrating it once. |
| `Utils.MigrateIdempotent` | modules/utils.py:58-85 | Migrating the document twice is migrating it once. |
| `Utils.MigrateBookingFixedIff` | modules/utils.py:77-83 | Migration leaves a booking unchanged exactly when it has no German weekday or mode. |
| `Utils.MigrateDeskFixedIff` | modules/utils.py:62-83 | Migration leaves a desk unchanged exactly when it holds no legacy value. |
| `Utils.MigrateFixedIff` | modules/utils.py:58-85 | Migration leaves the document unchanged exactly when it holds no legacy value, so it rewrites nothing else. |
| `Utils.MigrateRemovesLegacy` | modules/utils.py:58-85 | After migration no German weekday or mode and no "stundenplan", "vollbuchung" or "Leer" remains. |
| `Utils.LoadConfig` | modules/utils.py:44-56 | A missing file gives an empty desk map. A loaded document is free of legacy values and already migrated. |
| `Utils.SaveConfig` | modules/utils.py:87-95 | The written document is the migrated one. Each written desk is the migration of the input desk under the same id, with no other ids. The result is free of legacy values and a fixed point of the migration. A document without desks, or one already legacy-free, is written unchanged. |
| `Utils.LoadAfterSave` | modules/utils.py:44-95 | Reading back a written document gives exactly what was written. |
| `Utils.DeskStatus` | modules/utils.py:97-120 | A project desk always gets the project indicator, "Project (unassigned)" without a name. Otherwise an occupied full-booking desk is fully booked ("Booked: name"). Otherwise any bookings give "n Bookings", else "Free". A missing type counts as "schedule". |
| `Utils.ProjectStatusIgnoresBookings` | modules/utils.py:107-114 | A project desk's status does not depend on its bookings. |
| `Utils.MigrateDeskStatus` | modules/utils.py:58-120 | Migration changes a desk's status exactly when it is a legacy "vollbuchung" desk with an occupant. |
| `DeskPlanning.SlotKey` | modules/desk_planning.py:271 | The key is the day, one `_`, and the slot, at those positions. |
| `DeskPlanning.SplitSlotKey` | modules/desk_planning.py:350 | Decoding fails exactly when the key has no `_`, and the decoded slot holds no `_`. |
| `DeskPlanning.SplitSlotKeyRoundTrip` | modules/desk_planning.py:271 | Decoding the key of (day, slot) gives back the day and slot, for any day and any slot without `_`. |
| `DeskPlanning.BookableKeyRoundTrip` | modules/desk_planning.py:322 | The round trip holds for every bookable slot. |
| `DeskPlanning.SlotKeyRejoin` | modules/desk_planning.py:350 | A key that decodes is the key of what it decodes to. |
| `DeskPlanning.SlotKeyInjective` | modules/desk_planning.py:271 | Different (day, slot) pairs give different keys. |
| `DeskPlanning.BookedSlots` | modules/desk_planning.py:262-265 | A slot is booked for a day exactly when some booking of the desk holds that (day, slot). |
| `DeskPlanning.ClickSlot` | modules/desk_planning.py:283-309 | A booked slot's button leaves the selection unchanged. A selected free slot is removed, and an unselected free slot is added. |
| `DeskPlanning.ClickKeepsSelectionFree` | modules/desk_planning.py:283-309 | Clicking on a desk's grid keeps every selected (day, slot) free on that desk. |
| `DeskPlanning.CreateBookings` | modules/desk_planning.py:349-363 | The loop succeeds exactly when every selected key decodes. Otherwise it fails on a key that does not. |
| `DeskPlanning.CreateBookingsStep` | modules/desk_planning.py:349-363 | One iteration stores the booking for the first key under `tag_slot_suffix` and continues with the rest. |
| `DeskPlanning.NewIds` | modules/desk_planning.py:353 | The new ids are exactly the ids built from each key and its stamp. |
| `DeskPlanning.NewIdsSplit` | modules/desk_planning.py:353 | The new ids of a non-empty batch are the first id plus the ids of the rest. |
| `DeskPlanning.CreateBookingsKeys` | modules/desk_planning.py:349-363 | After the loop the booking ids are the old ids plus the new ids. |
| `DeskPlanning.CreateBookingsKeepsOthers` | modules/desk_planning.py:349-363 | A booking whose id the loop does not reuse is unchanged. |
| `DeskPlanning.CreateBookingsCreates` | modules/desk_planning.py:355-362 | The booking under a key's new id has the decoded day and slot, the form's person and notes, the mode and the creation time. |
| `DeskPlanning.NewIdInjective` | modules/desk_planning.py:353 | With `_`-free suffixes, an id determines its key and suffix. |
| `DeskPlanning.NewIdsDistinct` | modules/desk_planning.py:353 | Distinct keys give pairwise distinct ids, so no booking of the batch overwrites another. |
| `DeskPlanning.NewIdsCount` | modules/desk_planning.py:353 | There are as many new ids as selected keys. |
| `DeskPlanning.CreateBookingsAddsOnePerKey` | modules/desk_planning.py:349-363 | With fresh ids the loop adds exactly one booking per key, made from that key, and keeps every existing booking. |
| `DeskPlanning.CreateBookingsKeepsSlotsUnique` | modules/desk_planning.py:283-290 | If every key is free on the desk and the desk had no double booking, it has none after the loop. |
| `DeskPlanning.SaveBookings` | modules/desk_planning.py:342-370 | An empty name is refused first, then an empty selection, and nothing is stored. A save succeeds exactly when the name and the selection are non-empty and every selected key decodes; a key that does not decode is reported. On success the selection is cleared, and only the desk's bookings change. |
| `DeskPlanning.SaveBookingsAddsSelection` | modules/desk_planning.py:349-366 | A successful save adds one booking per selected key, with the form's person and notes and "No Computer" on a desk without a computer. Existing bookings are unchanged. |
| `DeskPlanning.DistinctCardinality` | modules/desk_planning.py:349 | Listing a set without repeats lists as many elements as the set has. |
| `DeskPlanning.SaveKeepsSlotsUnique` | modules/desk_planning.py:283-290 | A selection made on this desk's own grid does not double-book it. |
| `DeskPlanning.SelectionIsSessionWide` | modules/desk_planning.py:216-217 | A slot selected on desk "1", where it is free, is saved on desk "2", where it is taken, and desk "2" ends up double-booked. |
| `DeskPlanning.DeleteBooking` | modules/desk_planning.py:405-407 | Exactly the given id is removed, and every other booking is unchanged. |
| `DeskPlanning.DeleteOnDesk` | modules/desk_planning.py:405-408 | Only the desk's bookings change, losing exactly the given id. |
| `DeskPlanning.DeleteFreesSlot` | modules/desk_planning.py:262-265 | After a delete the (day, slot) is booked exactly when another booking holds it. Without double bookings it becomes free. |
| `DeskPlanning.DeleteUndoesSave` | modules/desk_planning.py:405-407 | Deleting the booking a one-slot save just created restores the bookings. |
| `DeskPlanning.IndexOf` | modules/desk_planning.py:386 | `.index` gives the first position of the day, or nothing when it is absent, where Python raises. |
| `DeskPlanning.SortKey` | modules/desk_planning.py:386 | The key is missing exactly when the defaulted day is not in the list; otherwise it is the day's position and the slot, `""` when absent. |
| `DeskPlanning.KeyLtAsymmetric` | modules/desk_planning.py:386 | A key that sorts before another also sorts no later than it. |
| `DeskPlanning.KeyLeTransitive` | modules/desk_planning.py:386 | The order on (day index, slot) keys is transitive. |
| `DeskPlanning.InsertByKey` | modules/desk_planning.py:384-387 | Inserting into a key-sorted list keeps it key-sorted and adds exactly the inserted id. |
| `DeskPlanning.PrependKeepsSorted` | modules/desk_planning.py:386 | Putting a booking whose key is not above any listed key in front keeps the list sorted. |
| `DeskPlanning.SortByKey` | modules/desk_planning.py:384-387 | The result is a key-sorted permutation of the ids. The sort is stable: for every key, the ids with that key appear in the order they were given. |
| `DeskPlanning.WithKeyAppend` | modules/desk_planning.py:384-387 | Appending an id to the input adds it at the end of its own key's list and changes no other key's list. |
| `DeskPlanning.WithKeyEmpty` | modules/desk_planning.py:384-387 | A list in which no id has key k has an empty list for k. |
| `DeskPlanning.WithKeyCons` | modules/desk_planning.py:384-387 | A non-empty list's ids of key k are its head, if it has key k, followed by its tail's ids of key k. |
| `DeskPlanning.InsertByKeyStable` | modules/desk_planning.py:384-387 | Inserting an id into a sorted list puts it after every id of its own key and leaves every other key's ids in their order. |
| `DeskPlanning.InsertFrontStable` | modules/desk_planning.py:384-387 | An id placed in front of a sorted list whose keys are all above its own is the only id of its key. |
| `DeskPlanning.InsertConsStable` | modules/desk_planning.py:384-387 | When the inserted id does not go in front, the head keeps its place and stability carries over from the tail. |
| `DeskPlanning.FirstUnknownDay` | modules/desk_planning.py:386 | It finds a booking whose day is not a listed weekday exactly when one exists. |
| `DeskPlanning.SortBookings` | modules/desk_planning.py:384-387 | The list fails exactly when some booking's day, defaulted, is not a listed weekday. Otherwise it is a permutation of the bookings ordered by (weekday index, slot). Bookings with equal keys, such as two on the same day and slot or two on one day without a slot, stay in dict order. |
| `DeskPlanning.BookingListOrder` | modules/desk_planning.py:384-387 | Earlier entries have an earlier or equal weekday in `WEEKDAYS_ALL`, a missing day read as "Monday", and on the same day a slot that does not sort later. |
| `DeskPlanning.GridCell` | modules/desk_planning.py:192-196 | A cell has one entry per booking holding that (day, slot). Entry k is the person, or "Unknown", of the k-th such booking in dict order. It lists every holder's person and nobody else. |
| `DeskPlanning.CellPersons` | modules/desk_planning.py:192-196 | Walking the bookings in dict order collects one person per holder of the slot, entry k belonging to the k-th holder. |
| `DeskPlanning.HolderIndices` | modules/desk_planning.py:192-196 | The positions in dict order of the bookings holding (day, slot), strictly increasing, and exactly those positions. |
| `DeskPlanning.CellBase` | modules/desk_planning.py:192-196 | With no bookings to walk, a cell has no holders and stays empty. |
| `DeskPlanning.CellStep` | modules/desk_planning.py:192-196 | Meeting one more booking appends its person exactly when it holds the slot, and the cell still lists the holders in order. |
| `DeskPlanning.CellMembership` | modules/desk_planning.py:192-196 | A cell that lists the holders in order contains every holder's person and no one else, and is non-empty exactly when some booking holds the slot. |
| `DeskPlanning.HolderPositionsStep` | modules/desk_planning.py:192-196 | Extending the booking order by one booking adds one holder exactly when that booking holds the slot. |
| `DeskPlanning.DayGrid` | modules/desk_planning.py:189 | A day has one cell per display slot and no other. |
| `DeskPlanning.DayGridShowsBooked` | modules/desk_planning.py:186-207 | A display cell is non-empty exactly when the slot is booked that day. Bookings outside the display slots are not shown. |
| `DeskPlanning.GridCellAtMostOne` | modules/desk_planning.py:192-196 | Without double bookings a cell names at most one person. |
| `DeskPlanning.ViewFor` | modules/desk_planning.py:85-90 | "fullbooking" opens the occupant form and "projekt" the project form. Any other or missing type opens the schedule. |
| `DeskPlanning.ViewMatchesStatus` | modules/desk_planning.py:85-90 | The project view is shown exactly for desks with the project indicator. A fully booked desk opens the occupant form. |
| `DeskPlanning.SaveOccupant` | modules/desk_planning.py:111 | Only the desk's occupant changes. |
| `DeskPlanning.SaveProject` | modules/desk_planning.py:147-148 | Only the desk's project name and contact change. |
| `DeskPlanning.SaveOccupantStatus` | modules/utils.py:115-120 | A saved name makes a full-booking desk "Booked: name". An empty name leaves "n Bookings" when stale bookings exist, else "Free". |
| `DeskPlanning.SaveProjectStatus` | modules/utils.py:107-114 | A saved project desk shows the project indicator. Without a project name it reads "Project (unassigned)"; with one, "Project: name", followed by a contact line exactly when a contact was entered. |
| `DeskConfig.RechnerRecord` | modules/desk_config.py:107-113 | The computer record carries the chosen screen count either way. Without a computer it holds "Leer", "" and false. |
| `DeskConfig.InitFields` | modules/desk_config.py:115-126 | Name, type and computer are kept. The type's own fields exist afterwards, existing fields keep their values, and a field that changes was missing and now starts empty. |
| `DeskConfig.SubmitDeskForm` | modules/desk_config.py:103-126 | A desk id missing from the document is an error. Otherwise name, type and computer record are written. The new type's field is added, empty, only when missing. No field is removed or overwritten, and other desks are unchanged. |
| `DeskConfig.SubmitIdempotent` | modules/desk_config.py:103-126 | Submitting the same form twice is submitting it once. |
| `DeskConfig.RetypeKeepsStaleBookings` | modules/desk_config.py:116-121 | A schedule desk with bookings retyped to "fullbooking" keeps its bookings and shows as partly booked. |
| `DeskConfig.TypeSelectorIndex` | modules/desk_config.py:51 | The type selector opens on the stored type when it is known, else on "schedule". |
| `DeskConfig.ComputerTypeSelectorIndex` | modules/desk_config.py:73-75 | The computer-type selector opens on the stored type when it is known, else on "CPU". |
| `DeskConfig.ScreenSelectorIndex` | modules/desk_config.py:55-59 | The screen selector opens on the stored count (default 0), which is accepted exactly when it is 0, 1 or 2. |
| `DeskConfig.OpenForm` | modules/desk_config.py:43-90 | The form opens exactly when the screen count is accepted, with a known type and screen count, and a known computer type when a computer is present. |
| `DeskConfig.ResubmitIsNoOp` | modules/desk_config.py:43-126 | Opening the form on a desk in the shape it writes and submitting it unchanged gives back the desk after migration. |
| `LegacyApp.LegacySlotsAreModern` | tischplanung_app.py:15-16 | The legacy slot lists equal the modular app's. |
| `LegacyApp.LegacyVocabularyMigrates` | tischplanung_app.py:11-12 | Every German weekday, mode, desk type and computer type the legacy app writes is a table key. Each maps to the modern value at the same position. |
| `LegacyApp.LegacyLoadConfig` | tischplanung_app.py:18-25 | The legacy load returns the stored document unmigrated, or an empty desk map. |
| `LegacyApp.LoadIsMigratedLegacyLoad` | modules/utils.py:44-56 | The modular load is the legacy load followed by the migration. |
| `LegacyApp.LegacyDeskStatus` | tischplanung_app.py:216-224 | An occupied "vollbuchung" desk is fully booked ("Gebucht: name"). Otherwise bookings give "n Buchungen", else "Frei". There is never a project indicator. |
| `LegacyApp.LegacyStatusAfterMigration` | tischplanung_app.py:252-260 | Both apps show the same indicator, the modular one after migration, exactly for desks that are neither project desks nor occupied "fullbooking" desks. |
| `Utils.MigratedType` | modules/utils.py:64-65 | Migration yields "projekt" only from "projekt", and "fullbooking" only from "fullbooking" or "vollbuchung". |
| `LegacyApp.LegacyViewFor` | tischplanung_app.py:152-155 | "vollbuchung" opens the occupant form, and every other type the schedule. |
| `LegacyApp.LegacyViewAfterMigration` | tischplanung_app.py:152-155 | Both apps open the same view, the modular one after migration, exactly when the desk is not already "fullbooking" or "projekt". |
| `LegacyApp.LegacySaveBookings` | tischplanung_app.py:661-689 | An empty name or selection is refused. A save succeeds exactly when the name and the selection are non-empty and every selected key decodes; a key that does not decode is reported. On success the selection is cleared, and only the desk's bookings change. |
| `LegacyApp.MigrateBookingsUpdate` | modules/utils.py:76-83 | Migrating after storing a booking is storing the migrated booking. |
| `LegacyApp.CreateBookingsModeAgnostic` | tischplanung_app.py:668-682 | Two save loops with the same keys, person and notes, and modes that migrate alike, fail alike or leave bookings that migrate alike. |
| `LegacyApp.LegacySaveAgreesAfterMigration` | tischplanung_app.py:678 | A legacy save and a modular save of the same selection agree once migrated, "Kein Rechner" becoming "No Computer". |
| `LegacyApp.LegacyListSucceedsIff` | tischplanung_app.py:703-706 | The legacy booking list is produced exactly when every booking's day, defaulted to "Montag", is a German weekday. |
| `LegacyApp.WeekdayListsDisjoint` | tischplanung_app.py:12 | No English weekday is a German one. |
| `LegacyApp.LegacyListRejectsMigratedDay` | tischplanung_app.py:705 | One booking with an English weekday makes the legacy booking list fail. |
| `LegacyApp.LegacyGridBlankOnMigratedDays` | tischplanung_app.py:505-515 | On bookings with English weekdays, the legacy weekly overview shows every cell empty. |
| `LegacyApp.LegacyTypeSelectorIndex` | tischplanung_app.py:354-358 | The legacy type selector opens on "stundenplan" exactly for "stundenplan" desks, and on "vollbuchung" for every other type. |
| `LegacyApp.LegacyComputerTypeSelectorIndex` | tischplanung_app.py:376-382 | The legacy computer-type selector opens on the stored type when it is GPU, CPU or Leer, else on "CPU". |
| `LegacyApp.LegacyOpenForm` | tischplanung_app.py:349-396 | The legacy form opens exactly when the screen count is accepted, with a legacy type and a legacy computer type. |
| `LegacyApp.LegacySubmitDeskForm` | tischplanung_app.py:409-419 | A missing desk id is an error. Otherwise name, type and computer record are written, and no type field is added or changed. |
| `LegacyApp.SubmitExtendsLegacySubmit` | modules/desk_config.py:115-126 | The modular submit writes what the legacy one writes and only adds missing fields, empty. |
| `LegacyApp.LegacyResubmitIsNoOp` | tischplanung_app.py:349-419 | Opening the legacy form on a desk it wrote and submitting it unchanged gives the desk back. |
| `LegacyApp.LegacyFormRetypesScheduleDesk` | tischplanung_app.py:357 | A "schedule" desk submitted unchanged through the legacy form is stored as "vollbuchung", a full-booking desk after the next migration. |

## Left out

- Streamlit presentation. Widgets, columns, CSS, messages, expanders, `st.rerun` and the emoji strings are not modelled. Indicators are the `Indicator` datatype.
- `modules/room_view.py` and `main.py` are not part of this model. The legacy room layout (`tischplanung_app.py:157-313`) is not modelled beyond its status rule. The room-view-to-planning handoff through session state is left out too. All of these are navigation or layout with no data effect.
- File I/O. `os.path.exists`, `json.load`, `json.dump` and `makedirs` become an optional stored document, read or written.
- JSON parsing. Fields hold the types the apps write (bool, int, string). A JSON value of another type, and Python truthiness of such values, are not modelled. A computer counts as present only when `vorhanden` is `true`.
- `datetime.now()` becomes a `Stamp` per created booking, passed in.
- `Registry.DeskOptions`: requires every desk key to be a string of ASCII digits. `int()` raises on other keys. The forms Python's `int` also accepts (sign, surrounding spaces, `_` between digits) are not modelled.
- `DeskPlanning.SaveBookingsAddsSelection`: assumes each new id is fresh and each id suffix holds no `_`. Two readings of the clock in the same microsecond for one key would reuse an id; that case is left to `DeskPlanning.CreateBookingsKeys` and `DeskPlanning.CreateBookingsCreates`, which need no freshness.
- `DeskPlanning.SaveBookings`: `MalformedKey` models the `ValueError` of the unpacking, which no key made by the grid triggers.
- Every desk page reads `tisch_data['name']` before anything else: the configuration pages at `modules/desk_config.py:33` and `tischplanung_app.py:339`, and the planning pages at `modules/desk_planning.py:46` and `tischplanung_app.py:115`. A desk without a name raises there. The model accepts such a desk: `DeskConfig.OpenForm` and `LegacyApp.LegacyOpenForm` take the widgets' `.get` default, and `DeskPlanning.SaveBookings`, `DeskPlanning.DeleteOnDesk`, `DeskPlanning.SaveOccupant` and `DeskPlanning.SaveProject` (and their legacy uses) succeed on a nameless desk, which the program never reaches.
- `DeskConfig.ScreenSelectorIndex`: a count Streamlit rejects is `None`. The exception it raises is not modelled further.
- The grouped display of the current selection (`modules/desk_planning.py:316-330`) is display only. Its `rsplit` is the one modelled by `DeskPlanning.SplitSlotKey`.
- No save re-checks conflicts. There is no atomic write, locking or retry, because the code has none. Concurrent sessions writing the same file are not modelled.
