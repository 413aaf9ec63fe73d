# Ratiba Events: the registration store

A Dafny model of the event-registration core of Ratiba Events, a Django REST API. It
covers the three tables Events, Participants and Registrations, plus the Bookings table
that one serializer writes. It models the views that register participants, list them,
list past and future events, upload an event image and delete rows. It also models the
`create` and `update` methods of the registration and booking serializers. The
repository holds two copies of the application, `base` and `ratiba_events/base`, and
the model keeps both where they differ.

Layout:

- `clock.dfy` (`Clock`): instants are UTC microsecond ticks. Event dates and times are
  Nairobi wall-clock values; the time zone is `Africa/Nairobi`, UTC+3 with no daylight
  saving. `MakeAware` and `LocalTime` convert between the two.
- `models.dfy` (`Models`): the rows as datatypes; the charge and status choices with
  their defaults; the column lengths; the list orderings.
- `fields.dfy` (`Fields`): the serializers' `setattr` loops, proved to set exactly the
  named fields.
- `store.dfy` (`Store`): all tables as one value, the schema's constraints as `Valid`,
  and each ORM statement as a function with the database's errors.
- `database.dfy` (`Db`): class `Database`, whose map fields the statements update in
  place. Every method is proved equal to its `Store` function and to keep `Valid`.
- `registrar.dfy` (`Registrar`): the closing test and the decision sequence that both
  `RegisterEvent` views share.
- `base_views.dfy`, `ratiba_views.dfy`, `base_serializers.dfy`,
  `ratiba_serializers.dfy`: the views and serializers. Each operation that writes is a
  method on a `Database`, proved equal to a specification function. Lemmas state what
  each operation guarantees.

Where the code and its evident intent differ, the model follows the code and says so
under "## Findings" or "## Left out". Three cases are worth knowing up front:

- The closing test is strict. An event starting exactly now is still open.
- `ratiba_events/base/views.py:48` reads `event.event_datetime`, a field the Event model
  does not have. `RatibaViews.RegisterAsWritten` models that crash; `RatibaViews.RegisterEvent`
  uses the event's `date` and `time` there, as the `base` copy does (see "## Findings").
- The registration serializer's verdict inside `RegisterEvent` is an opaque boolean.
  The view hands the serializer `{'event': id, 'participant': id}`, but the serializer
  declares `event_id` and a nested participant, so as written that verdict is never
  positive.

## Model

| member | source | states |
|---|---|---|
| Clock.Split | django-postgres/base/views.py:157-158 | splitting an instant into a date and a time of day loses nothing: the ticks of the result are the instant |
| Clock.SplitTicks | django-postgres/base/views.py:168-169 | splitting the ticks of a date and time gives that date and time back |
| Clock.TicksOrder | django-postgres/base/views.py:156-159 | comparing tick counts is exactly the lexicographic (date, time) comparison the list filters spell out |
| Clock.MakeAware | django-postgres/base/views.py:70-72 | the aware instant of a Nairobi wall-clock reading, shifted by the +3 hour offset, reads as that wall clock again |
| Clock.LocalTime | django-postgres/base/views.py:70-73 | the Nairobi reading of an instant is the wall clock that `make_aware` turns back into that instant |
| Clock.UtcTime | django-postgres/base/views.py:155-158 | `now.date()` and `now.time()` are the UTC parts of now: their ticks are now, three hours behind the Nairobi reading |
| Clock.LocalTimeRoundTrip | django-postgres/base/views.py:70-72 | `make_aware` and reading an instant on the Nairobi clock are inverse, in both directions |
| Clock.BeforeLocalIffEarlier | django-postgres/base/views.py:70-73 | a wall-clock start is before the Nairobi reading of now iff its aware instant is before now |
| Models.ChargeCode | django-postgres/ratiba_events/base/models.py:7-19 | every charge is stored as a non-empty code of at most 4 characters |
| Models.StatusCode | django-postgres/ratiba_events/base/models.py:40-49 | every status is stored as a non-empty code within the 10-character column |
| Models.StrLeTotal | django-postgres/ratiba_events/base/models.py:36 | any two names are comparable in the order participants are listed by |
| Models.StrLeTransitive | django-postgres/ratiba_events/base/models.py:36 | the name order is transitive |
| Models.StrLeAntisymmetric | django-postgres/ratiba_events/base/models.py:36 | two names each no later than the other are equal |
| Models.EventOrderIsTotalPreorder | django-postgres/ratiba_events/base/models.py:25 | ordering by (date, time) is total and transitive, and ties exactly the events that start together |
| Models.ParticipantOrderIsTotalPreorder | django-postgres/ratiba_events/base/models.py:36 | ordering by name is total and transitive, and ties exactly the participants with equal names |
| Fields.SetAttrs | django-postgres/base/serializers.py:44-45 | the loop computes `setattr` applied to the object for each item in order |
| Fields.ApplyFirstThen | django-postgres/base/serializers.py:44-45 | applying at most one item and then the rest is the same as applying all items |
| Fields.ParticipantItemsApply | django-postgres/base/serializers.py:44-45 | the loop over a participant payload sets exactly the named fields |
| Fields.SetParticipantAttrs | django-postgres/base/serializers.py:44-45 | the participant gets each supplied field's value; every field not supplied keeps its value |
| Fields.PatchParticipantIdempotent | django-postgres/base/serializers.py:44-45 | applying the same participant payload twice is the same as applying it once |
| Fields.EventScheduleItemsApply | django-postgres/ratiba_events/base/serializers.py:47-48 | the date, time, venue and charge items set exactly those fields |
| Fields.EventItemsApply | django-postgres/ratiba_events/base/serializers.py:47-48 | the loop over an event payload sets exactly the named fields |
| Fields.SetEventAttrs | django-postgres/ratiba_events/base/serializers.py:47-48 | the event gets each supplied field's value and keeps every other field |
| Fields.PatchEventFits | django-postgres/ratiba_events/base/models.py:13-18 | a payload whose title and venue fit their columns keeps the event saveable |
| Fields.RegistrationItemsApply | django-postgres/base/serializers.py:49-50 | the loop over a registration's own fields sets exactly the supplied timestamp and status |
| Fields.SetRegistrationAttrs | django-postgres/base/serializers.py:49-50 | the registration gets the supplied timestamp and status; its event and participant are untouched |
| Fields.BookingItemsApply | django-postgres/base/serializers.py:89-90 | the loop over a booking's own fields sets exactly the supplied timestamp and status |
| Fields.SetBookingAttrs | django-postgres/base/serializers.py:89-90 | the booking gets the supplied timestamp and status; its event and participant are untouched |
| Store.Valid | django-postgres/ratiba_events/base/models.py:28-52 | unique emails, unique (event, participant) pairs, foreign keys that exist, ids issued by their sequences and rows that fit their columns; under these the next id of every sequence is free and no event or participant has id 0 |
| Store.EmptyValid | django-postgres/ratiba_events/base/models.py:30-52 | an empty database satisfies every constraint |
| Store.OwnerOf | django-postgres/base/views.py:81-82 | lookup by email finds a participant iff one has that email, and then it is the only one |
| Store.MatchOf | django-postgres/base/serializers.py:29 | lookup on every field finds a participant iff an equal row exists |
| Store.Registered | django-postgres/base/views.py:87 | the `.exists()` query holds iff the (event, participant) pair is among the registrations' pairs |
| Store.RegisteredIds | django-postgres/base/views.py:109-110 | the `values_list` holds exactly the participants some registration for the event names |
| Store.ParticipantsOf | django-postgres/base/views.py:109-111 | the `id__in` query yields exactly the existing participants with a registration for the event, each once; when the foreign keys hold it drops none of the listed ids |
| Store.AddEvent | django-postgres/ratiba_events/base/models.py:12-19 | an event is inserted under a fresh id iff its title and venue fit; otherwise nothing changes |
| Store.CreateParticipant | django-postgres/ratiba_events/base/models.py:29-30 | a participant is inserted under a fresh id iff its fields fit and its email is unused; otherwise nothing changes |
| Store.GetOrCreateByEmail | django-postgres/base/views.py:81-84 | a taken email returns its participant unchanged; otherwise a participant is created from the defaults |
| Store.GetOrCreateExact | django-postgres/base/serializers.py:29 | an equal row is reused and nothing is written; otherwise an overlong field is a DataError, a collision on email alone an IntegrityError, and else the data is inserted under the next participant id with every other table unchanged; the created flag is set exactly when no equal row existed |
| Store.CreateRegistration | django-postgres/ratiba_events/base/models.py:46-52 | a registration is inserted under a fresh id iff its pair is not yet registered; otherwise IntegrityError and nothing changes |
| Store.CreateBooking | django-postgres/base/serializers.py:75 | a booking is inserted under a fresh id and nothing else changes |
| Store.SaveParticipant | django-postgres/base/serializers.py:46 | the row is overwritten iff it fits and no other participant has its email; otherwise nothing changes |
| Store.SaveEvent | django-postgres/ratiba_events/base/serializers.py:49 | the row is overwritten iff it fits; otherwise nothing changes |
| Store.SaveRegistration | django-postgres/base/serializers.py:51 | the registration row is overwritten and every constraint still holds |
| Store.SaveBooking | django-postgres/base/serializers.py:91 | the booking row is overwritten and nothing else changes |
| Store.DeleteEvent | django-postgres/ratiba_events/base/models.py:46 | deleting an event removes exactly its registrations, keeps the others unchanged, and keeps every constraint |
| Store.DeleteParticipant | django-postgres/ratiba_events/base/models.py:47 | deleting a participant removes exactly its registrations, keeps the others unchanged, and keeps every constraint |
| Store.GetOrCreateByEmailIdempotent | django-postgres/base/views.py:81-84 | looking up the same email again returns the same participant and writes nothing |
| Store.DeleteEventLeavesNoParticipants | django-postgres/ratiba_events/base/models.py:46 | after deleting an event no registration refers to it and it lists no participants |
| Store.DeleteParticipantUnlists | django-postgres/ratiba_events/base/models.py:47 | after deleting a participant no registration refers to it and no event lists it |
| Db.Database.constructor | django-postgres/ratiba_events/base/models.py:6-53 | a new database has empty tables and satisfies every constraint |
| Db.Database.AddEvent | django-postgres/ratiba_events/base/models.py:12-19 | the in-place insert computes `Store.AddEvent` and keeps the constraints |
| Db.Database.FindByEmail | django-postgres/base/views.py:81-82 | the scan over the participants answers `Store.OwnerOf`: the one participant with that email, or none |
| Db.Database.CreateParticipant | django-postgres/ratiba_events/base/models.py:29-30 | the in-place insert computes `Store.CreateParticipant` and keeps the constraints |
| Db.Database.GetOrCreateByEmail | django-postgres/base/views.py:81-84 | computes `Store.GetOrCreateByEmail` in place and keeps the constraints |
| Db.Database.GetOrCreateExact | django-postgres/base/serializers.py:29 | computes `Store.GetOrCreateExact` in place and keeps the constraints |
| Db.Database.IsRegistered | django-postgres/base/views.py:87 | the scan over the registrations answers `Store.Registered`: true iff some registration links the event and the participant, i.e. the participant is among the event's registered ids |
| Db.Database.CreateRegistration | django-postgres/ratiba_events/base/models.py:46-52 | computes `Store.CreateRegistration` in place and keeps the constraints |
| Db.Database.CreateBooking | django-postgres/base/serializers.py:75 | computes `Store.CreateBooking` in place |
| Db.Database.SaveParticipant | django-postgres/base/serializers.py:46 | computes `Store.SaveParticipant` in place and keeps the constraints |
| Db.Database.SaveEvent | django-postgres/ratiba_events/base/serializers.py:49 | computes `Store.SaveEvent` in place and keeps the constraints |
| Db.Database.SaveRegistration | django-postgres/base/serializers.py:51 | computes `Store.SaveRegistration` in place and keeps the constraints |
| Db.Database.SaveBooking | django-postgres/base/serializers.py:91 | computes `Store.SaveBooking` in place |
| Db.Database.DeleteEvent | django-postgres/base/views.py:135-136 | deletes the event and its registrations in place (`Store.DeleteEvent`) |
| Db.Database.DeleteParticipant | django-postgres/base/views.py:146-147 | deletes the participant and its registrations in place (`Store.DeleteParticipant`) |
| Registrar.IsClosed | django-postgres/base/views.py:70-73 | registration is closed iff the event's wall-clock start precedes the Nairobi reading of now |
| Registrar.ClosedIffStartEarlier | django-postgres/base/views.py:70-75 | registration is closed iff the aware start is strictly before now; an event starting exactly now is open |
| Registrar.Register | django-postgres/base/views.py:63-100 | a registration request keeps every table constraint, whichever way it ends |
| Registrar.RegisterUnknownEvent | django-postgres/base/views.py:67 | an unknown or missing event id is not found and no table changes |
| Registrar.RegisterClosedIff | django-postgres/base/views.py:67-79 | a known event is refused as closed iff its start is before now, whatever the participant data, and nothing is written then |
| Registrar.RegisterInvalidParticipant | django-postgres/base/views.py:78-100 | rejected participant data on an open event gives the serializer's errors and writes nothing |
| Registrar.RegisterReusesParticipant | django-postgres/base/views.py:80-89 | a participant with the submitted email is reused unchanged; the request is a duplicate iff that participant is registered already |
| Registrar.RegisterCreatesParticipant | django-postgres/base/views.py:80-98 | an unseen email adds exactly one participant, built from the defaults, which stays whatever happens next |
| Registrar.RegisterDuplicate | django-postgres/base/views.py:87-89 | a duplicate pair leaves the Registrations and Events tables unchanged |
| Registrar.RegisterSuccess | django-postgres/base/views.py:92-96 | success adds exactly one registration under a fresh id, for the event, stamped now and pending; Events and Bookings are unchanged and every existing participant keeps its row |
| Registrar.RegisterSucceedsIff | django-postgres/base/views.py:67-98 | on an open event with accepted data, the request registers iff get-or-create succeeds, the pair is new and the registration data is accepted |
| Registrar.RegisterTwice | django-postgres/base/views.py:81-89 | repeating a successful request is refused as a duplicate and writes nothing |
| Registrar.RegisteredIsListed | django-postgres/base/views.py:96-111 | after a successful registration the participant is listed for the event |
| BaseViews.RegisterEvent | django-postgres/base/views.py:63-100 | the view computes `Register` with the validated data as defaults, in place, and keeps the constraints |
| BaseViews.RegisterEventTwice | django-postgres/base/views.py:80-89 | repeating a successful request is refused as a duplicate |
| BaseViews.ListParticipants | django-postgres/base/views.py:106-113 | exactly the participants registered for the event, each once; none when no event id is given |
| BaseViews.StartsAtOrAfter | django-postgres/base/views.py:168-169 | the future filter is the exact complement of the past filter's lexicographic (date, time) test |
| BaseViews.PastEventsAt | django-postgres/base/views.py:156-159 | exactly the events whose start comes strictly before the clock reading, as instants |
| BaseViews.FutureEventsAt | django-postgres/base/views.py:167-170 | exactly the events whose start is at or after the clock reading, as instants |
| BaseViews.ListsPartitionEvents | django-postgres/base/views.py:156-170 | for any clock reading, every event is in exactly one of the two lists |
| BaseViews.PastEventListAsWritten | django-postgres/base/views.py:155-159 | as written, an event is past iff the ticks of its wall-clock start are below now's UTC ticks |
| BaseViews.FutureEventListAsWritten | django-postgres/base/views.py:166-170 | as written, an event is future iff now's UTC ticks are at most the ticks of its wall-clock start |
| BaseViews.AsWrittenListsClosedEventAsFuture | django-postgres/base/views.py:155-170 | as written, an event whose registration is closed can still be listed as future |
| BaseViews.AsWrittenPastListIsClosed | django-postgres/base/views.py:155-159 | as written, the past list never shows an event that is still open |
| BaseViews.PastEventList | django-postgres/base/views.py:155-159 | read on the Nairobi clock, an event is past iff its aware start is strictly before now |
| BaseViews.FutureEventList | django-postgres/base/views.py:166-170 | read on the Nairobi clock, an event is future iff its aware start is at or after now |
| BaseViews.ListsMatchRegistration | django-postgres/base/views.py:70-170 | the past list holds exactly the closed events and the future list exactly the open ones |
| BaseViews.Provided | django-postgres/base/views.py:44 | an uploaded file is truthy when it is present and has a non-empty name |
| BaseViews.ImageUpload | django-postgres/base/views.py:39-47 | an upload keeps every table constraint |
| BaseViews.ImageUploadChangesOnlyImage | django-postgres/base/views.py:39-47 | an upload succeeds iff the event exists and a named file was sent; it then changes only that event's image; otherwise nothing changes |
| BaseViews.UploadEventImage | django-postgres/base/views.py:39-47 | the view computes `ImageUpload` in place |
| BaseViews.DeleteEvent | django-postgres/base/views.py:134-137 | 404 iff the id is unknown, and nothing changes then; otherwise the event and its registrations are deleted |
| BaseViews.DeleteParticipant | django-postgres/base/views.py:145-148 | 404 iff the id is unknown, and nothing changes then; otherwise the participant and its registrations are deleted |
| BaseViews.DeletedEventUnlisted | django-postgres/ratiba_events/base/models.py:46 | a deleted event is in neither event list and lists nobody; every other event's participants are unchanged |
| BaseViews.DeletedParticipantUnlisted | django-postgres/ratiba_events/base/models.py:47 | a deleted participant disappears from every event's participant list, and nothing else in those lists changes |
| RatibaViews.RegisterEvent | django-postgres/ratiba_events/base/views.py:38-71 | the view, with the closing test read from the event's `date` and `time`, computes `Register` with the submitted data as defaults, in place, and keeps the constraints |
| RatibaViews.RegisterAsWritten | django-postgres/ratiba_events/base/views.py:45-50 | as written, an unknown event is a 404 and a known event raises at `event.event_datetime`; neither writes |
| RatibaViews.RegisterAsWrittenNeverRegisters | django-postgres/ratiba_events/base/views.py:48 | Event instances have no `event_datetime`, so as written no request registers or writes anything, and every known event raises |
| RatibaViews.RegisterEventStoresSubmittedData | django-postgres/ratiba_events/base/views.py:56-57 | a new participant is stored exactly as submitted; submitted text that does not fit fails in the database |
| RatibaViews.RegisterEventTwice | django-postgres/ratiba_events/base/views.py:57-61 | repeating a successful request is refused as a duplicate |
| RatibaViews.ListParticipants | django-postgres/ratiba_events/base/views.py:78-83 | exactly the participants registered for the event, each once |
| RatibaViews.ListParticipantsAgree | django-postgres/ratiba_events/base/views.py:78-83 | the two copies' participant lists agree on every event id |
| BaseSerializers.SaveParticipantPatch | django-postgres/base/serializers.py:42-46 | a participant payload changes only the named fields of that participant, or nothing if the save fails |
| BaseSerializers.SaveParticipantPatchIdempotent | django-postgres/base/serializers.py:42-46 | saving the same participant payload again succeeds and changes nothing |
| BaseSerializers.RegistrationKeys | django-postgres/base/serializers.py:17-26 | the validated data holds the event id under `event`, never under `event_id` |
| BaseSerializers.RegistrationCreation | django-postgres/base/serializers.py:24-36 | creation keeps every table constraint |
| BaseSerializers.RegistrationCreationAsWritten | django-postgres/base/serializers.py:26 | without an `event_id` key the call raises before any write |
| BaseSerializers.RegistrationCreationAsWrittenCrashes | django-postgres/base/serializers.py:17-26 | as written, every `create` raises KeyError and writes nothing |
| BaseSerializers.RegistrationCreationSucceedsIff | django-postgres/base/serializers.py:29-35 | a registration is created iff the participant is got or created, the event exists, and the pair is new |
| BaseSerializers.RegistrationCreationSaved | django-postgres/base/serializers.py:35 | creation adds one row linking the event to a participant equal to the data, with the given or default timestamp and status |
| BaseSerializers.RegistrationCreationKeepsParticipant | django-postgres/base/serializers.py:29-32 | an unknown event is reported after the participant step, whose row stays, and no registration is written |
| BaseSerializers.CreateRegistration | django-postgres/base/serializers.py:24-36 | computes `RegistrationCreation` in place |
| BaseSerializers.RegistrationUpdate | django-postgres/base/serializers.py:38-53 | an update keeps every table constraint |
| BaseSerializers.RegistrationUpdateKeepsPair | django-postgres/base/serializers.py:39-53 | the registration keeps its event and participant and gets exactly the supplied fields, or nothing changes on failure |
| BaseSerializers.RegistrationUpdatePatchesParticipant | django-postgres/base/serializers.py:42-46 | only the named fields of the registration's participant change; all other participants and events stay |
| BaseSerializers.RegistrationUpdateIgnoresEvent | django-postgres/base/serializers.py:39 | the requested event has no effect |
| BaseSerializers.RegistrationUpdateIdempotent | django-postgres/base/serializers.py:38-53 | repeating a successful update succeeds again and changes nothing |
| BaseSerializers.UpdateRegistration | django-postgres/base/serializers.py:38-53 | computes `RegistrationUpdate` in place and returns the same registration |
| BaseSerializers.BookingKeys | django-postgres/base/serializers.py:57-66 | the validated data holds the event id under `event`, never under `event_id` |
| BaseSerializers.BookingCreation | django-postgres/base/serializers.py:64-76 | creation keeps every table constraint |
| BaseSerializers.BookingCreationAsWritten | django-postgres/base/serializers.py:66 | without an `event_id` key the call raises before any write |
| BaseSerializers.BookingCreationAsWrittenCrashes | django-postgres/base/serializers.py:57-66 | as written, every `create` raises KeyError and writes nothing |
| BaseSerializers.BookingCreationSaved | django-postgres/base/serializers.py:69-75 | a booking is created iff the participant is got or created and the event exists; it is one new row with the given fields |
| BaseSerializers.CreateBooking | django-postgres/base/serializers.py:64-76 | computes `BookingCreation` in place |
| BaseSerializers.BookingUpdate | django-postgres/base/serializers.py:78-93 | an update keeps every table constraint |
| BaseSerializers.BookingUpdateKeepsPair | django-postgres/base/serializers.py:79-93 | the booking keeps its event and participant and gets exactly the supplied fields; a truthy participant payload sets exactly its fields on the booking's participant, and otherwise the participants stay; on any other outcome nothing changes |
| BaseSerializers.UpdateBooking | django-postgres/base/serializers.py:78-93 | computes `BookingUpdate` in place and returns the same booking |
| RatibaSerializers.RegistrationCreationAsWritten | django-postgres/ratiba_events/base/serializers.py:23-32 | `create` keeps every table constraint |
| RatibaSerializers.RegistrationCreationNeverSaves | django-postgres/ratiba_events/base/serializers.py:28-31 | `create` never inserts a registration; once the participant step succeeds it raises, leaving a participant equal to the data |
| RatibaSerializers.CreateRegistration | django-postgres/ratiba_events/base/serializers.py:23-32 | computes `RegistrationCreationAsWritten` in place |
| RatibaSerializers.SaveEventPatch | django-postgres/ratiba_events/base/serializers.py:45-49 | an event payload changes only the named fields of that event, or nothing if the save fails |
| RatibaSerializers.RegistrationUpdate | django-postgres/ratiba_events/base/serializers.py:34-56 | an update keeps every table constraint |
| RatibaSerializers.RegistrationUpdateNotAtomic | django-postgres/ratiba_events/base/serializers.py:39-49 | the update fails after a saved participant change iff the patched event does not fit; the participant change then stays |
| RatibaSerializers.RegistrationUpdateValidEventSaves | django-postgres/ratiba_events/base/serializers.py:45-56 | with event data that passed the length checks, an update whose participant step succeeds succeeds |
| RatibaSerializers.RegistrationUpdateSaved | django-postgres/ratiba_events/base/serializers.py:34-56 | success sets exactly the supplied fields of the registration, its event and its participant, and keeps the pair |
| RatibaSerializers.UpdateRegistration | django-postgres/ratiba_events/base/serializers.py:34-56 | computes `RegistrationUpdate` in place and returns the same registration |

## Findings

| source | as written | input that shows it | evidently intended | confidence | as-written member | corrected member |
|---|---|---|---|---|---|---|
| django-postgres/base/views.py:155-159,166-170 | the list filters compare the event's Nairobi wall-clock date and time with the UTC date and time of now | an event at 10:00 on day D, with now at 08:00 UTC on D (11:00 in Nairobi): registration is closed, but the event is listed as future | read now on the Nairobi clock, as the closing test of `RegisterEvent` does | medium, not executed | BaseViews.AsWrittenListsClosedEventAsFuture | BaseViews.ListsMatchRegistration |
| django-postgres/base/serializers.py:26 | `validated_data.pop('event_id')`, although a field with `source='event.id'` stores its value under `event` | any call to `RegistrationSerializer.create` | read the event id from `validated_data['event']['id']` | high, not executed | BaseSerializers.RegistrationCreationAsWrittenCrashes | BaseSerializers.RegistrationCreationSaved |
| django-postgres/base/serializers.py:66 | the same `pop('event_id')` in `BookingSerializer.create` | any call to `BookingSerializer.create` | read the event id from `validated_data['event']['id']` | high, not executed | BaseSerializers.BookingCreationAsWrittenCrashes | BaseSerializers.BookingCreationSaved |
| django-postgres/ratiba_events/base/views.py:48 | the closing test reads `event.event_datetime`, an attribute the Event model does not have | any request naming an existing event: AttributeError (a 500) after `get_object_or_404`, before anything is written | combine the event's `date` and `time`, as the `base` copy does | high, not executed | RatibaViews.RegisterAsWrittenNeverRegisters | RatibaViews.RegisterEvent |
| django-postgres/ratiba_events/base/serializers.py:31 | passes the nested event *data* where Django requires an Event instance | any `create` whose participant get-or-create succeeds; it also leaves that participant behind | link the registration to the event the data denotes, as the `base` serializer does with its event id | medium, not executed | RatibaSerializers.RegistrationCreationNeverSaves | BaseSerializers.RegistrationCreationSaved |

## Left out

- `RSVPEvent` and `RSVPSerializer`: the serializer's code is not part of this model.
- The Booking model: its definition is not part of this model. Booking rows are opaque. Their status is free text, their timestamp and status arrive with the defaults already applied, and no constraint, foreign key or cascade is assumed for them.
- `EventList`, `CreateEvent` and `EventDetail`: generic DRF views outside the store's rules. `Store.AddEvent` stands for the insert that `CreateEvent` performs.
- Response bodies: each view's result is an outcome value. The serialized data, messages and status codes appear only as the names and comments of the outcomes.
- Serializer validation: `ParticipantSerializer.is_valid()` is a boolean supplied with the request, combined with the model's length limits. DRF's whitespace trimming, email syntax check and automatic unique-email validator are not modelled.
- Registration-serializer validity inside `RegisterEvent`: an opaque boolean, for the reason given above.
- Store.GetOrCreateExact: a failed insert leaves the participant id sequence where it was. PostgreSQL draws the id with `nextval` before the unique index on `email` rejects the row, and sequences are not rolled back, so after such a failure the ids the model gives later rows are lower than the database's. Only which ids are fresh, not their values, is meant to carry over.
- Store.CreateParticipant: the same; an IntegrityError on the unique email consumes no sequence value in the model.
- Store.CreateRegistration: the same; an IntegrityError on `unique_together` consumes no registration id in the model.
- Registrar.Register: the view's `registration_serializer.save()` is modelled as a direct insert of a pending registration stamped now, not as the serializer's `create`, which as written raises (see "## Findings").
- Request parsing: event ids arrive as natural numbers or as absent. A non-numeric `event_id` or `pk`, for which `get_object_or_404` and the id filters raise ValueError (a 500), cannot be expressed.
- Registrar.Register: a participant dictionary with keys other than `name` and `email` is not modelled. In the `ratiba_events` copy, which passes the dictionary as `defaults`, extra keys are ignored when the email is taken; `id`/`pk` would set the new row's primary key; any other unknown key raises FieldError after the lookup by email finds nothing.
- Registrar.Register: the registration's timestamp is the `now` of the closing test; the real default is taken a moment later, when the row is saved.
- Time zones: Nairobi is a fixed UTC+3 offset; historical offset changes are not modelled. Instants are whole microseconds.
- The model defaults for an event's `date` and `time` (`timezone.now`): `AddEvent` takes a complete event.
- Image storage: the stored image reference is the uploaded file's name. The `upload_to` prefix, renaming on collision and the column's length limit are not modelled.
- Orderings compare names by code point; the database collation is not modelled. The event and participant orderings are stated as relations, and no sorted listing is produced. The registration ordering by `timestamp` is not modelled.
- Races between the duplicate check and the insert, and transactions: calls run one after another; the unique constraints in `Store` are the safety net.
- Authentication, JWT, Swagger decorators, URL routing, settings and migrations.
