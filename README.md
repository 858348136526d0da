# Booking table of the Discord flight-booking bot

The bot lets pilots book roles (Barcap, Escort, Sead, Dead, Strike, or names the
organiser types in) for a mission. This project models the bot's booking table. It
covers three versions of the bot:

- `test_prenotazioni.py`: every event gets a table built from a fixed role template. One
  plane is chosen per role. A plane picker enables only the buttons of the roles that fly
  the chosen plane. A user already booked into another role of the event is refused.
- `prenotazioni_donkey.py`: the organiser picks a cover image, the default or a link. They
  then add roles one at a time by name. The event table is rebuilt from all the names
  after every addition.
- `test_prenotazionibackup.py`: one global list of users per template role is shared by
  every event. An event only decides which roles are active. There is no check across
  roles.

Modules:

- `Text` (`text.dfy`): the Python text primitives the rendering uses. `str.strip()` is
  tied to the padding it removes, `str(int)` to a parser that reads the number back, and
  `", ".join(...)` to the same text read from the front (`JoinCons`) and extended at the
  end (`JoinAppend`).
- `Table` (`table.dfy`): the shared data.
  - An event's table is a Python dict from role name to `{plane, slots, users}`. It is
    modelled as a key order plus a map, because embed fields and the cross-role scan
    follow dict insertion order.
  - `table[k] = v` (`Assign`) and building a table from a list of names (`BuildTable`,
    and the loop `FillTable`).
  - `list.remove` (`RemoveFirst`).
  - The toggle every version shares (`Toggle`): remove a booked user, refuse when full,
    otherwise append.
  - The field text and the role buttons.
- `Prenotazioni`, `Donkey` and `Backup`: one module per bot version. Each has a
  `BookingStore` class holding the global `bookings` dict.
  - `Prenotazioni` and `Backup` model the booking button's callback as a function, with
    lemmas for each outcome and for the invariants it keeps; their `BookingStore.Press`
    changes the dict in place.
  - `Donkey` has no booking buttons. Its `BookingStore` only starts empty, and the setup
    dialogue's `EventSetupView.FinishSetup` is what writes into it.
  - `Prenotazioni` and `Donkey` keep the setup dialogue as a class (`EventSetupView`).

Invariants of an event table (`Prenotazioni.Consistent`):

- no role has more users than slots;
- no user appears twice in a role;
- in `test_prenotazioni.py`, no user appears in two roles of the same event.

The cross-role check in `test_prenotazioni.py:80` tests the found role name for truth, so
a role named `""` would not refuse anybody. Template role names are never empty, and
`Consistent` records this as `"" !in roles`.

Callbacks are modelled as atomic steps. A button press is looked up by its event key in
`bookings`. The Python button instead keeps a reference to the dict object it was
created with (see "Left out").

`test_prenotazionibackup.py` does not keep the `{plane, slots, users}` record per event.
It keeps a plain list of user names per role, and the `Backup` module follows that.

## Model

| member | source | states |
|---|---|---|
| Text.LStrip | prenotazioni_donkey.py:97 | `lstrip` removes only leading whitespace, all of it: the result is a suffix of the input, the removed prefix is all whitespace, and the result does not start with whitespace |
| Text.RStrip | prenotazioni_donkey.py:97 | `rstrip` removes only trailing whitespace, all of it: the result is a prefix of the input, the removed suffix is all whitespace, and the result does not end with whitespace |
| Text.Strip | prenotazioni_donkey.py:97 | the stripped role name has no whitespace at either end and is no longer than the input |
| Text.StripRemovesPadding | prenotazioni_donkey.py:62 | stripping any whitespace padding around a trimmed text gives back exactly that text |
| Text.StripIdempotent | prenotazioni_donkey.py:97 | stripping an already stripped name changes nothing |
| Text.NatToString | test_prenotazioni.py:50 | `str(len(users))` is a non-empty string of decimal digits with no leading zero |
| Text.ParseNatToString | test_prenotazioni.py:50 | the decimal text of a count reads back as that count |
| Text.IntToString | test_prenotazioni.py:50 | `str(slots)` is never empty and starts with a minus sign exactly for a negative number; `ParseIntToString` shows it reads back |
| Text.ParseIntToString | test_prenotazioni.py:50 | the text of a slot count, negative or not, reads back as that number |
| Text.Join | test_prenotazioni.py:48 | `", ".join(users)` puts a two-character separator between neighbours; `JoinCons` and `JoinAppend` fix the text exactly |
| Text.JoinAppend | test_prenotazioni.py:48 | joining a list with one more name appends exactly `", " + name`, or is the name alone for an empty list |
| Text.JoinCons | test_prenotazioni.py:48 | the joined text is the first name, then `", "` and the join of the rest |
| Text.JoinSeveralHasComma | test_prenotazioni.py:48 | two or more joined names always contain a comma |
| Table.Assign | test_prenotazioni.py:195-199 | `table[role] = info` stores `info` under `role`; a new key goes last in the order, an existing key keeps its place; the result is still a well-formed dict |
| Table.PlaneOf | test_prenotazioni.py:194 | `selected_planes.get(role, "Non Attivo")`: the picked plane when there is one, "Non Attivo" otherwise |
| Table.Dedup | prenotazioni_donkey.py:128-130 | the keys of a dict filled from a list of names are distinct, are exactly the names, and are no more than the names |
| Table.DedupOfDistinct | test_prenotazioni.py:193-199 | filling a dict from distinct names keeps all of them in order |
| Table.DedupCollapses | prenotazioni_donkey.py:128-130 | a name given twice leaves fewer keys than names |
| Table.SlotsFor | test_prenotazioni.py:197 | `info["slots"]` of a name is the slot count of one of the template's entries for that name |
| Table.SlotsForDistinct | test_prenotazioni.py:197 | with distinct template names, a name's slot count is its own entry's |
| Table.BuildTable | test_prenotazioni.py:192-199 | the table built from a template has one key per distinct name, in first-occurrence order; each role has its picked plane or "Non Attivo", its template slots and no users |
| Table.FillTable | test_prenotazioni.py:192-199 | the building loop produces exactly `BuildTable` of the template and the picked planes |
| Table.BuildTableDistinct | test_prenotazioni.py:192-199 | with distinct names, the built order is the template order and each role holds its own slots and plane |
| Table.BuildTableInvariants | prenotazioni_donkey.py:127-130 | a freshly built table is within capacity and has no duplicate users in any role |
| Table.FirstIndex | test_prenotazioni.py:92 | the position `list.remove` acts on holds the user, and no earlier position does |
| Table.RemoveFirst | test_prenotazioni.py:92 | `list.remove` on a list holding the user drops the first copy of the user: the list is one shorter and every other user keeps its place in order; `RemoveFirstExactlyOne` adds that exactly one copy of the user goes |
| Table.RemoveFirstExactlyOne | test_prenotazioni.py:91-92 | `remove` on a list holding the user shortens it by one and takes exactly one copy of the user out of its multiset |
| Table.RemoveFirstDistinct | test_prenotazionibackup.py:77-78 | on a duplicate-free list, `remove` leaves no copy of the user and no duplicate |
| Table.RemoveFirstAfterAppend | test_prenotazioni.py:91-111 | removing a user who was just appended to a list without them gives the list back |
| Table.Toggle | test_prenotazioni.py:91-111 | the shared press decision never refuses for another role, removes exactly when the user is booked, and leaves the list alone when full; `ToggleCases` characterises all three branches |
| Table.ToggleKeepsInvariants | test_prenotazioni.py:88-111 | a press never overfills a role and never books a user twice into it |
| Table.ToggleCases | test_prenotazioni.py:88-111 | Removed iff the user was booked, Full iff not booked and the role is full, Added otherwise; Removed takes exactly that user out, Full leaves the list alone, Added appends the user and grows the list by one |
| Table.ToggleTwice | test_prenotazioni.py:91-111 | booking a role with room and then pressing it again cancels the booking and restores the list |
| Table.Pilots | test_prenotazioni.py:48 | the booked list reads "Nessuno" exactly when the role is empty, or when its only user is literally called "Nessuno" |
| Table.Occupancy | test_prenotazioni.py:50 | the label `role (n/slots)` starts with the role and closes with a parenthesis; `OccupancyReadsBack` shows the numbers read back |
| Table.OccupancyReadsBack | test_prenotazioni.py:50 | the label `role (n/slots)` carries the count and the capacity as text that reads back as those numbers |
| Table.RoleField | test_prenotazioni.py:47-53 | one role's field: the label starts with the role and its occupancy and then says "Attivo" exactly when the role is active; the list reads "Nessuno" exactly when nobody (or a user called "Nessuno") is booked |
| Table.FieldAfterAppend | test_prenotazioni.py:48 | booking one more user appends exactly `", " + user` to the field's list, or replaces "Nessuno" by the user |
| Table.Fields | prenotazioni_donkey.py:43-47 | the embed has one field per role, in dict order; each label starts with that role and its occupancy and says "Attivo" exactly when the role's plane is not "Non Attivo"; each list reads "Nessuno" exactly when nobody (or a user called "Nessuno") is booked |
| Table.EventEmbed | prenotazioni_donkey.py:39-50 | the embed carries the title, the given image and one field per role in dict order, each showing its role as `Fields` states |
| Table.RoleButton | test_prenotazioni.py:61-63 | a role button is captioned with the role, green exactly when active, and disabled exactly when inactive |
| Prenotazioni.HolderIndex | test_prenotazioni.py:74-78 | the scan stops at the first role in dict order whose list holds the user, and at the end when none does |
| Prenotazioni.Holder | test_prenotazioni.py:74-78 | `already_in_role` is a role holding the user; it is None iff no role holds the user |
| Prenotazioni.HolderIsTheRoleHeld | test_prenotazioni.py:74-78 | when every user holds at most one role, the scan finds the role the user holds |
| Prenotazioni.ScanHolder | test_prenotazioni.py:74-78 | the `for`/`break` loop computes exactly `Holder` |
| Prenotazioni.Callback | test_prenotazioni.py:70-111 | a press keeps the dict's keys and order, touches no other role, and keeps the pressed role's plane and slots |
| Prenotazioni.CallbackRefusesOtherRole | test_prenotazioni.py:73-86 | a user booked into a different role of the event is refused, the refusal names that role, and the table is unchanged |
| Prenotazioni.CallbackRemoves | test_prenotazioni.py:91-93 | a user booked into the pressed role is taken out of it, exactly once; no other role and no other field changes |
| Prenotazioni.CallbackFull | test_prenotazioni.py:103-108 | a user not booked anywhere, pressing a full role, is refused and the table is unchanged |
| Prenotazioni.CallbackAdds | test_prenotazioni.py:110-111 | otherwise the user is appended at the end of the role's list, which grows by one, and nothing else changes |
| Prenotazioni.CallbackKeepsConsistent | test_prenotazioni.py:75-111 | every press keeps capacity, no duplicates within a role, and at most one role per user |
| Prenotazioni.CallbackTwiceRestores | test_prenotazioni.py:91-111 | from a state where the user holds no role, pressing a role with room twice restores the original table |
| Prenotazioni.CallbackAddedShowsUser | test_prenotazioni.py:111-113 | after a booking, the role's field lists the new user last, after the previous list text |
| Prenotazioni.GenerateEmbed | test_prenotazioni.py:40-56 | the event embed always shows the background image and has one field per role |
| Prenotazioni.BookingButton | test_prenotazioni.py:60-63 | a role's button is enabled iff the role's plane equals the chosen plane |
| Prenotazioni.BookingView | test_prenotazioni.py:122-126 | one button per role, in dict order, captioned with the role; a button is disabled, and grey, exactly when its role's plane differs from the chosen plane |
| Prenotazioni.SelectablePlanes | test_prenotazioni.py:131 | the picker never offers "Non Attivo"; a role's plane is offered exactly when the role is active; every offered plane is the plane of some role |
| Prenotazioni.ActiveIffSelectable | test_prenotazioni.py:131 | a role is active exactly when its plane is among the picker's options, so its label says "Attivo" exactly then |
| Prenotazioni.PickedPlaneEnablesActiveRoles | test_prenotazioni.py:131-143 | choosing a plane from the picker enables at least one button, and only buttons of active roles |
| Prenotazioni.ConfirmedTable | test_prenotazioni.py:192-199 | Confirm builds exactly the template's roles, in template order, each with the picked plane or "Non Attivo", 4 slots and no users; the table is consistent |
| Prenotazioni.TemplateNames | test_prenotazioni.py:16-22 | the template's role names are distinct and non-empty, and every role has 4 slots |
| Prenotazioni.PickerOffersMenuPlanes | test_prenotazioni.py:153-157 | when every pick came from the role menus, the picker offers only FA-18C and F-16C |
| Prenotazioni.BookingStore.constructor | test_prenotazioni.py:33 | with no saved file, there are no events |
| Prenotazioni.BookingStore.Press | test_prenotazioni.py:70-111 | the press returns the callback's outcome; only the pressed event's table changes, as the callback says; every event stays consistent |
| Prenotazioni.EventSetupView.constructor | test_prenotazioni.py:169-173 | the setup dialogue starts with no plane picked |
| Prenotazioni.EventSetupView.SelectPlane | test_prenotazioni.py:162-163 | a pick records the plane for that role and changes no other pick |
| Prenotazioni.EventSetupView.Confirm | test_prenotazioni.py:191-203 | `bookings[data]` is replaced by the table built from the template and the picks, other events are untouched, and the posted embed renders that table |
| Donkey.SetupTable | prenotazioni_donkey.py:127-130 | the table built from the names so far is a well-formed dict |
| Donkey.SetupTableShape | prenotazioni_donkey.py:127-130 | one role per distinct name, in the order first added, each with its plane or "Non Attivo", 4 slots and no users; within capacity and free of duplicates |
| Donkey.RepeatedNameCollapses | prenotazioni_donkey.py:128-130 | a name added twice collapses to one key, so the event has fewer roles than names |
| Donkey.AddingRoleExtends | prenotazioni_donkey.py:97-98 | rebuilding after one more name gives the previous table with that name assigned a fresh, empty role |
| Donkey.NoPlanesNoActiveRole | prenotazioni_donkey.py:122-129 | with no plane picks, every role has plane "Non Attivo" and is inactive |
| Donkey.GenerateEmbed | prenotazioni_donkey.py:39-50 | the embed shows the chosen image and one field per role |
| Donkey.BackgroundTrimmed | prenotazioni_donkey.py:19 | the default image link is non-empty and has no surrounding whitespace |
| Donkey.ImageChoice | prenotazioni_donkey.py:62 | the chosen image is never empty and never padded, and it is either the stripped link or the default |
| Donkey.ImageChoiceProperties | prenotazioni_donkey.py:62 | the chosen image is never empty and never padded; it is the default exactly when the stripped link is empty or is the default; submitting the chosen link again, with whitespace padding, chooses the same image |
| Donkey.BookingStore.constructor | prenotazioni_donkey.py:32 | with no saved file, there are no events |
| Donkey.EventSetupView.constructor | prenotazioni_donkey.py:118-123 | the dialogue starts with no roles, no plane picks and the default image |
| Donkey.EventSetupView.PressImageButton | prenotazioni_donkey.py:71-78 | the default button sets the default image; the other button changes nothing, since it only opens the link dialogue |
| Donkey.EventSetupView.SubmitImageLink | prenotazioni_donkey.py:60-62 | the image becomes the stripped link, or the default when that is empty; roles and picks are untouched |
| Donkey.EventSetupView.FinishSetup | prenotazioni_donkey.py:125-133 | `bookings[data]` is replaced by the table built from all names so far, other events are untouched, and the posted embed renders it with the chosen image |
| Donkey.EventSetupView.AddRole | prenotazioni_donkey.py:97 | `parent_view.roles.append(name)`: the name goes last in the roles, and the picks and the image are untouched |
| Donkey.EventSetupView.SubmitRole | prenotazioni_donkey.py:94-98 | the stripped name is appended to the roles, and the stored event is rebuilt from all roles added so far, with nobody booked |
| Backup.TemplateNames | test_prenotazionibackup.py:17-23 | the template's role names are distinct and every role has 4 slots |
| Backup.InitialBookings | test_prenotazionibackup.py:34 | with no saved file, every template role, and nothing else, maps to an empty list |
| Backup.Callback | test_prenotazionibackup.py:73-104 | a press changes only the pressed role's list and never refuses for another role |
| Backup.CallbackCases | test_prenotazionibackup.py:77-97 | Removed iff the user was booked, and then exactly that user is taken out; Full iff not booked and 4 are booked, and then nothing changes; Added otherwise, and the user is appended |
| Backup.CallbackKeepsValid | test_prenotazionibackup.py:73-97 | every press keeps every role within capacity and free of duplicates |
| Backup.TwoRolesAtOnce | test_prenotazionibackup.py:73-104 | a user may book two different roles, one after the other, and then holds both |
| Backup.Image | test_prenotazionibackup.py:57-58 | the image is set exactly when a non-empty link is given, and it is that link |
| Backup.RoleField | test_prenotazionibackup.py:47-54 | one role's field: occupancy out of 4, "Attivo" exactly when the role is selected, and a list that reads "Nessuno" exactly when nobody (or a user called "Nessuno") is booked |
| Backup.Fields | test_prenotazionibackup.py:47-54 | one field per template role, in template order, whether active or not; the label gives the role and its occupancy out of 4 and says "Attivo" exactly for the selected roles; the list reads "Nessuno" exactly when nobody (or a user called "Nessuno") is booked |
| Backup.GenerateEmbed | test_prenotazionibackup.py:41-60 | the embed has one field per template role and shows the image exactly as `Image` decides; it needs only that every template role has a list |
| Backup.EmbedShowsSelection | test_prenotazionibackup.py:47-58 | a field says "Attivo" exactly for the roles selected for the event, and the image is shown exactly when a non-empty link is given |
| Backup.BookingShowsInEveryEvent | test_prenotazionibackup.py:49-54 | bookings are keyed by role only, so a booking shows, last in the role's list, in every event's embed |
| Backup.BookingView | test_prenotazionibackup.py:107-111 | one button per template role, captioned with the role and disabled iff the role is not selected |
| Backup.BookingStore.constructor | test_prenotazionibackup.py:34 | with no saved file, the store holds the initial empty lists |
| Backup.BookingStore.Press | test_prenotazionibackup.py:73-104 | the press returns the callback's outcome and leaves the store as the callback says; every role stays within capacity and free of duplicates |

## Left out

- Discord plumbing is left out: embeds as objects, `send_message`, `edit_message`, `followup`, modals, views, select menus and command registration. The texts of the ephemeral replies are left out too. Only the outcome of a press is modelled (refused for another role, removed, full, added), together with the embed content as data.
- Table.RemoveFirst: requires the user to be in the list. Python's `list.remove` raises `ValueError` otherwise; every caller (`Toggle`, both `BookingStore.Press` methods) tests membership first, so that error is never reached and is not modelled.
- `save_bookings` and loading `prenotazioni.json` at start-up are file I/O and are left out. Saving changes no modelled state.
- Prenotazioni.BookingStore.Press: requires every stored event to be consistent. The model establishes this from an empty store and keeps it; a hand-edited JSON file loaded at start-up could break it.
- Backup.BookingStore.Press: requires every template role to have a list within capacity and without duplicates. A loaded JSON file that lacks a role would raise `KeyError` in the source, and that error is not modelled.
- Token lookup, guild IDs, `on_ready`, `bot.run` and the slash-command handlers are left out; they are environment and registration.
- The Flask keep-alive server and its thread (`prenotazioni_donkey.py:167-177`) are left out; they are networking and concurrency.
- Concurrent callbacks on the shared dict are left out. Callbacks are modelled as atomic, sequential steps.
- The batching of `RolePlaneSelect` menus by five, and the loop that sends them, are left out as UI delivery. The pick itself is `EventSetupView.SelectPlane`.
- A Python button keeps a reference to the table dict it was created with. The model looks the table up by its event key instead. The two differ only after a second Confirm for the same key: buttons of the old message then change a dict that is no longer in `bookings`. That detached table is not modelled.
- Python iterates the picker's plane set in an arbitrary order. `Prenotazioni.SelectablePlanes` is a set, so the order of the options is not modelled. A picker with no options (every role "Non Attivo") is a Discord-side error and is not modelled.
- The `max_length` limits of the two text inputs (500 and 50 characters) and the `min_values`/`max_values` of the menus are enforced by Discord and are not modelled.
- `prenotazioni_donkey.py` declares `MAX_ROLES = 5` but never reads it, so nothing caps the number of roles. It also never writes `selected_planes`, so every role of that version is "Non Attivo" (`Donkey.NoPlanesNoActiveRole`), and the version has no booking buttons to model.
- In `test_prenotazionibackup.py`, `RoleSelect.callback` and the slash command only choose `active_roles` and re-render. They are covered by `Backup.GenerateEmbed` and `Backup.BookingView` with `active` as a parameter.
- Every reply embed in `test_prenotazionibackup.py` is re-rendered with the background image. The constant is modelled, but the rendering takes the link as a parameter.
- `prenotazioni donkey.py` (with a space) is a variant of `test_prenotazioni.py` that also records each user's plane; that file is not part of this model.
