/**
 * `create` and `update` of `RegistrationSerializer` and `BookingSerializer` in the `base`
 * application. Both serializers take the event as `event_id`, declared with
 * `source='event.id'`, and the participant as nested data.
 */
module BaseSerializers {
  import opened Wrappers
  import opened Clock
  import opened Models
  import opened Fields
  import Store
  import Db

  /** How a serializer's `create` or `update` ends. */
  datatype Outcome<T> =
    | Saved(id: T)                 // the saved instance
    | NotFound                     // Http404 from get_object_or_404
    | Failed(error: Store.DbError) // the database refused a write
    | Crashed                      // another exception escapes (KeyError, ValueError, DoesNotExist)

  /** A nested participant payload is truthy when it holds at least one field. */
  predicate Given(d: ParticipantPatch) {
    d.name.Some? || d.email.Some?
  }

  /**
   * `if participant_data: setattr(...) for each item; instance.participant.save()`: a
   * truthy payload is applied to participant `pid` and the row is saved.
   */
  ghost function SaveParticipantPatch(t: Store.Tables, pid: ParticipantId, d: Option<ParticipantPatch>)
    : (out: (Result<(), Store.DbError>, Store.Tables))
    requires Store.Valid(t) && pid in t.participants
    ensures Store.Valid(out.1)
    ensures out.0.Failure? ==> out.1 == t
    ensures out.0.Success? ==>
              out.1 == t.(participants := t.participants[pid := if d.Some? then PatchParticipant(t.participants[pid], d.value)
                                                                else t.participants[pid]])
  {
    if d.Some? && Given(d.value) then Store.SaveParticipant(t, pid, PatchParticipant(t.participants[pid], d.value))
    else (Success(()), t)
  }

  /** Saving the same payload again succeeds and changes nothing. */
  lemma SaveParticipantPatchIdempotent(t: Store.Tables, pid: ParticipantId, d: Option<ParticipantPatch>)
    requires Store.Valid(t) && pid in t.participants
    requires SaveParticipantPatch(t, pid, d).0.Success?
    ensures var t1 := SaveParticipantPatch(t, pid, d).1;
            SaveParticipantPatch(t1, pid, d) == (Success(()), t1)
  {
    var t1 := SaveParticipantPatch(t, pid, d).1;
    if d.Some? && Given(d.value) {
      PatchParticipantIdempotent(t.participants[pid], d.value);
      assert PatchParticipant(t1.participants[pid], d.value) == t1.participants[pid];
      assert t1.participants[pid := t1.participants[pid]] == t1.participants;
    }
  }

  // ---------------------------------------------------------------- RegistrationSerializer.create

  /** Validated input of `RegistrationSerializer`: the event id, the participant, and the optional own fields. */
  datatype RegistrationInput = RegistrationInput(eventId: nat, participant: Participant, fields: RegistrationPatch)

  /**
   * The keys of `validated_data` for a registration: a field declared with
   * `source='event.id'` is stored under `event`, not under its own name.
   */
  function RegistrationKeys(input: RegistrationInput): (keys: set<string>)
    ensures "event_id" !in keys && "event" in keys && "participant" in keys
  {
    {"event", "participant"}
      + (if input.fields.timestamp.Some? then {"timestamp"} else {})
      + (if input.fields.status.Some? then {"status"} else {})
  }

  /**
   * `RegistrationSerializer.create` with the event id read from where the serializer
   * stores it: get or create a participant equal to the nested data, 404 for an unknown
   * event, then insert the registration with `timestamp` defaulting to now and `status`
   * to pending.
   */
  ghost function RegistrationCreation(t: Store.Tables, input: RegistrationInput, now: Instant)
    : (out: (Outcome<RegistrationId>, Store.Tables))
    requires Store.Valid(t)
    ensures Store.Valid(out.1)
  {
    match Store.GetOrCreateExact(t, input.participant)
    case (Failure(err), t1) => (Failed(err), t1)
    case (Success((p, _)), t1) =>
      if input.eventId !in t1.events then (NotFound, t1)
      else
        var row := Registration(input.eventId, p, input.fields.timestamp.GetOr(now),
                                input.fields.status.GetOr(DefaultStatus));
        match Store.CreateRegistration(t1, row)
        case (Success(id), t2) => (Saved(id), t2)
        case (Failure(err), t2) => (Failed(err), t2)
  }

  /**
   * `RegistrationSerializer.create` as written, on a `validated_data` with key set `keys`:
   * `validated_data.pop('event_id')` raises KeyError when that key is missing.
   */
  ghost function RegistrationCreationAsWritten(t: Store.Tables, keys: set<string>, input: RegistrationInput, now: Instant)
    : (out: (Outcome<RegistrationId>, Store.Tables))
    requires Store.Valid(t)
    ensures Store.Valid(out.1)
    ensures "event_id" !in keys ==> out == (Crashed, t)
  {
    if "event_id" !in keys then (Crashed, t)
    else RegistrationCreation(t, input, now)
  }

  /**
   * The serializer never hands `create` an `event_id` key, so as written every call
   * raises KeyError before touching the database.
   */
  lemma RegistrationCreationAsWrittenCrashes(t: Store.Tables, input: RegistrationInput, now: Instant)
    requires Store.Valid(t)
    ensures RegistrationCreationAsWritten(t, RegistrationKeys(input), input, now) == (Crashed, t)
  {
  }

  /**
   * A registration is created exactly when the participant could be found or created,
   * the event exists, and the pair is not registered yet.
   */
  lemma RegistrationCreationSucceedsIff(t: Store.Tables, input: RegistrationInput, now: Instant)
    requires Store.Valid(t)
    ensures var got := Store.GetOrCreateExact(t, input.participant);
            RegistrationCreation(t, input, now).0.Saved? <==>
              && got.0.Success?
              && input.eventId in t.events
              && !Store.Registered(t.registrations, input.eventId, got.0.value.0)
  {
    var got := Store.GetOrCreateExact(t, input.participant);
    if got.0.Success? {
      assert got.1.events == t.events && got.1.registrations == t.registrations;
    }
  }

  /**
   * A created registration is one new row linking the event to a participant equal to
   * the nested data, with the given or default timestamp and status.
   */
  lemma RegistrationCreationSaved(t: Store.Tables, input: RegistrationInput, now: Instant)
    requires Store.Valid(t)
    ensures var (r, t1) := RegistrationCreation(t, input, now);
            r.Saved? ==>
              && r.id !in t.registrations
              && t1.events == t.events
              && var row := t1.registrations[r.id];
                 && t1.registrations == t.registrations[r.id := row]
                 && row.event == input.eventId
                 && t1.participants[row.participant] == input.participant
                 && row.timestamp == (if input.fields.timestamp.Some? then input.fields.timestamp.value else now)
                 && row.status == (if input.fields.status.Some? then input.fields.status.value else Pending)
  {
  }

  /**
   * An unknown event is reported only after the participant was got or created; a
   * participant created then stays (nothing is rolled back) and no registration is written.
   */
  lemma RegistrationCreationKeepsParticipant(t: Store.Tables, input: RegistrationInput, now: Instant)
    requires Store.Valid(t)
    ensures var (r, t1) := RegistrationCreation(t, input, now);
            r == NotFound ==>
              && t1 == Store.GetOrCreateExact(t, input.participant).1
              && input.participant in t1.participants.Values
              && t1.registrations == t.registrations
  {
    var got := Store.GetOrCreateExact(t, input.participant);
    if got.0.Success? {
      assert got.1.participants[got.0.value.0] == input.participant;
    }
  }

  method CreateRegistration(db: Db.Database, input: RegistrationInput, now: Instant) returns (r: Outcome<RegistrationId>)
    requires db.Valid()
    modifies db
    ensures db.Valid()
    ensures (r, db.State()) == RegistrationCreation(old(db.State()), input, now)
  {
    var got := db.GetOrCreateExact(input.participant);
    if got.Failure? {
      return Failed(got.error);
    }
    if input.eventId !in db.events {
      return NotFound;
    }
    var row := Registration(input.eventId, got.value.0, input.fields.timestamp.GetOr(now),
                            input.fields.status.GetOr(DefaultStatus));
    var created := db.CreateRegistration(row);
    match created
    case Success(id) => r := Saved(id);
    case Failure(err) => r := Failed(err);
  }

  // ---------------------------------------------------------------- RegistrationSerializer.update

  /**
   * Validated input of an update: a requested event (popped and ignored), the nested
   * participant fields, and the registration's own fields.
   */
  datatype RegistrationChanges = RegistrationChanges(event: Option<nat>, participant: Option<ParticipantPatch>,
                                                     fields: RegistrationPatch)

  /**
   * `RegistrationSerializer.update`: a truthy participant payload is applied to the
   * registration's participant and saved; then the registration's own fields are set and
   * saved. The requested event is discarded.
   */
  ghost function RegistrationUpdate(t: Store.Tables, id: RegistrationId, c: RegistrationChanges)
    : (out: (Outcome<RegistrationId>, Store.Tables))
    requires Store.Valid(t) && id in t.registrations
    ensures Store.Valid(out.1)
  {
    var reg := t.registrations[id];
    match SaveParticipantPatch(t, reg.participant, c.participant)
    case (Failure(err), t1) => (Failed(err), t1)
    case (Success(_), t1) => (Saved(id), Store.SaveRegistration(t1, id, PatchRegistration(reg, c.fields)))
  }

  /**
   * An update keeps the registration's event and participant whatever event was
   * requested; on success it sets exactly the given fields of the registration, and on
   * failure it writes nothing.
   */
  lemma RegistrationUpdateKeepsPair(t: Store.Tables, id: RegistrationId, c: RegistrationChanges)
    requires Store.Valid(t) && id in t.registrations
    ensures var (r, t1) := RegistrationUpdate(t, id, c);
            var reg := t.registrations[id];
            && (r.Failed? ==> t1 == t)
            && (r.Saved? ==>
                  && r.id == id
                  && t1.registrations == t.registrations[id := PatchRegistration(reg, c.fields)]
                  && t1.registrations[id].event == reg.event
                  && t1.registrations[id].participant == reg.participant)
  {
    var reg := t.registrations[id];
    var (r0, t0) := SaveParticipantPatch(t, reg.participant, c.participant);
    if r0.Success? {
      assert t0.registrations == t.registrations;
    }
  }

  /**
   * A successful update sets exactly the given fields of the registration's participant
   * and leaves every other participant and every event as it was.
   */
  lemma RegistrationUpdatePatchesParticipant(t: Store.Tables, id: RegistrationId, c: RegistrationChanges)
    requires Store.Valid(t) && id in t.registrations
    ensures var (r, t1) := RegistrationUpdate(t, id, c);
            var pid := t.registrations[id].participant;
            r.Saved? ==>
              && t1.events == t.events
              && t1.participants == t.participants[pid := if c.participant.Some? then PatchParticipant(t.participants[pid], c.participant.value)
                                                          else t.participants[pid]]
  {
    var reg := t.registrations[id];
    var (r0, t0) := SaveParticipantPatch(t, reg.participant, c.participant);
    if r0.Success? {
      assert RegistrationUpdate(t, id, c).1.participants == t0.participants;
    }
  }

  /** The requested event has no effect on an update. */
  lemma RegistrationUpdateIgnoresEvent(t: Store.Tables, id: RegistrationId, c: RegistrationChanges, event: Option<nat>)
    requires Store.Valid(t) && id in t.registrations
    ensures RegistrationUpdate(t, id, c.(event := event)) == RegistrationUpdate(t, id, c)
  {
  }

  /** Repeating a successful update succeeds again and changes nothing more. */
  lemma RegistrationUpdateIdempotent(t: Store.Tables, id: RegistrationId, c: RegistrationChanges)
    requires Store.Valid(t) && id in t.registrations
    requires RegistrationUpdate(t, id, c).0.Saved?
    ensures var t1 := RegistrationUpdate(t, id, c).1;
            RegistrationUpdate(t1, id, c) == (Saved(id), t1)
  {
    var reg := t.registrations[id];
    var t0 := SaveParticipantPatch(t, reg.participant, c.participant).1;
    var t1 := RegistrationUpdate(t, id, c).1;
    var reg1 := PatchRegistration(reg, c.fields);
    assert t1 == t0.(registrations := t0.registrations[id := reg1]);
    SaveParticipantPatchIdempotent(t, reg.participant, c.participant);
    assert SaveParticipantPatch(t1, reg.participant, c.participant) == (Success(()), t1) by {
      assert t1 == SaveParticipantPatch(t, reg.participant, c.participant).1.(registrations := t1.registrations);
    }
    assert PatchRegistration(reg1, c.fields) == reg1;
    assert t1.registrations[id := reg1] == t1.registrations;
  }

  method UpdateRegistration(db: Db.Database, id: RegistrationId, c: RegistrationChanges) returns (r: Outcome<RegistrationId>)
    requires db.Valid() && id in db.registrations
    modifies db
    ensures db.Valid()
    ensures (r, db.State()) == RegistrationUpdate(old(db.State()), id, c)
  {
    var instance := db.registrations[id];
    if c.participant.Some? && Given(c.participant.value) {
      var person := SetParticipantAttrs(db.participants[instance.participant], c.participant.value);
      var saved := db.SaveParticipant(instance.participant, person);
      if saved.Failure? {
        return Failed(saved.error);
      }
    }
    instance := SetRegistrationAttrs(instance, c.fields);
    db.SaveRegistration(id, instance);
    r := Saved(id);
  }

  // ---------------------------------------------------------------- BookingSerializer.create

  /**
   * Validated input of `BookingSerializer`: the event id, the participant, and the
   * booking's timestamp and status as the Booking model's defaults complete them.
   */
  datatype BookingInput = BookingInput(eventId: nat, participant: Participant, timestamp: Instant, status: string)

  /** The keys of `validated_data` for a booking; the event id is stored under `event`. */
  function BookingKeys(input: BookingInput): (keys: set<string>)
    ensures "event_id" !in keys && "event" in keys && "participant" in keys
  {
    {"event", "participant", "timestamp", "status"}
  }

  /**
   * `BookingSerializer.create` with the event id read from where the serializer stores
   * it: get or create the participant, 404 for an unknown event, then insert the booking.
   */
  ghost function BookingCreation(t: Store.Tables, input: BookingInput): (out: (Outcome<BookingId>, Store.Tables))
    requires Store.Valid(t)
    ensures Store.Valid(out.1)
  {
    match Store.GetOrCreateExact(t, input.participant)
    case (Failure(err), t1) => (Failed(err), t1)
    case (Success((p, _)), t1) =>
      if input.eventId !in t1.events then (NotFound, t1)
      else
        var (id, t2) := Store.CreateBooking(t1, Booking(input.eventId, p, input.timestamp, input.status));
        (Saved(id), t2)
  }

  /** `BookingSerializer.create` as written, on a `validated_data` with key set `keys`. */
  ghost function BookingCreationAsWritten(t: Store.Tables, keys: set<string>, input: BookingInput)
    : (out: (Outcome<BookingId>, Store.Tables))
    requires Store.Valid(t)
    ensures Store.Valid(out.1)
    ensures "event_id" !in keys ==> out == (Crashed, t)
  {
    if "event_id" !in keys then (Crashed, t)
    else BookingCreation(t, input)
  }

  /** As written, every call raises KeyError before touching the database. */
  lemma BookingCreationAsWrittenCrashes(t: Store.Tables, input: BookingInput)
    requires Store.Valid(t)
    ensures BookingCreationAsWritten(t, BookingKeys(input), input) == (Crashed, t)
  {
  }

  /**
   * A booking is created exactly when the participant could be found or created and the
   * event exists; it is one new row with the given fields and a participant equal to the
   * nested data.
   */
  lemma BookingCreationSaved(t: Store.Tables, input: BookingInput)
    requires Store.Valid(t)
    ensures var (r, t1) := BookingCreation(t, input);
            && (r.Saved? <==> Store.GetOrCreateExact(t, input.participant).0.Success? && input.eventId in t.events)
            && (r.Saved? ==>
                  && r.id !in t.bookings
                  && t1.registrations == t.registrations && t1.events == t.events
                  && var row := t1.bookings[r.id];
                     && t1.bookings == t.bookings[r.id := row]
                     && row.event == input.eventId && row.timestamp == input.timestamp && row.status == input.status
                     && t1.participants[row.participant] == input.participant)
  {
    var got := Store.GetOrCreateExact(t, input.participant);
    if got.0.Success? {
      assert got.1.events == t.events;
    }
  }

  method CreateBooking(db: Db.Database, input: BookingInput) returns (r: Outcome<BookingId>)
    requires db.Valid()
    modifies db
    ensures db.Valid()
    ensures (r, db.State()) == BookingCreation(old(db.State()), input)
  {
    var got := db.GetOrCreateExact(input.participant);
    if got.Failure? {
      return Failed(got.error);
    }
    if input.eventId !in db.events {
      return NotFound;
    }
    var id := db.CreateBooking(Booking(input.eventId, got.value.0, input.timestamp, input.status));
    r := Saved(id);
  }

  // ---------------------------------------------------------------- BookingSerializer.update

  /** Validated input of a booking update; the requested event is popped and ignored. */
  datatype BookingChanges = BookingChanges(event: Option<nat>, participant: Option<ParticipantPatch>, fields: BookingPatch)

  /**
   * `BookingSerializer.update`: as for registrations; a booking whose participant row is
   * gone raises DoesNotExist when a participant payload is given.
   */
  ghost function BookingUpdate(t: Store.Tables, id: BookingId, c: BookingChanges): (out: (Outcome<BookingId>, Store.Tables))
    requires Store.Valid(t) && id in t.bookings
    ensures Store.Valid(out.1)
  {
    var b := t.bookings[id];
    if c.participant.Some? && Given(c.participant.value) && b.participant !in t.participants then (Crashed, t)
    else if !(c.participant.Some? && Given(c.participant.value)) then
      (Saved(id), Store.SaveBooking(t, id, PatchBooking(b, c.fields)))
    else
      match SaveParticipantPatch(t, b.participant, c.participant)
      case (Failure(err), t1) => (Failed(err), t1)
      case (Success(_), t1) => (Saved(id), Store.SaveBooking(t1, id, PatchBooking(b, c.fields)))
  }

  /**
   * A booking update keeps the booking's event and participant, sets exactly the given
   * fields of the booking and of its participant on success, and writes nothing otherwise.
   */
  lemma BookingUpdateKeepsPair(t: Store.Tables, id: BookingId, c: BookingChanges)
    requires Store.Valid(t) && id in t.bookings
    ensures var (r, t1) := BookingUpdate(t, id, c);
            var b := t.bookings[id];
            && (!r.Saved? ==> t1 == t)
            && (r.Saved? ==>
                  && t1.bookings == t.bookings[id := PatchBooking(b, c.fields)]
                  && t1.bookings[id].event == b.event && t1.bookings[id].participant == b.participant
                  && t1.registrations == t.registrations && t1.events == t.events
                  && (c.participant.Some? && Given(c.participant.value) ==>
                        && b.participant in t.participants
                        && t1.participants == t.participants[b.participant := PatchParticipant(t.participants[b.participant], c.participant.value)])
                  && (!(c.participant.Some? && Given(c.participant.value)) ==> t1.participants == t.participants))
  {
    var b := t.bookings[id];
    if c.participant.Some? && Given(c.participant.value) && b.participant in t.participants {
      var (r0, t0) := SaveParticipantPatch(t, b.participant, c.participant);
      if r0.Success? {
        assert BookingUpdate(t, id, c).1.participants == t0.participants;
      }
    }
  }

  method UpdateBooking(db: Db.Database, id: BookingId, c: BookingChanges) returns (r: Outcome<BookingId>)
    requires db.Valid() && id in db.bookings
    modifies db
    ensures db.Valid()
    ensures (r, db.State()) == BookingUpdate(old(db.State()), id, c)
  {
    var instance := db.bookings[id];
    if c.participant.Some? && Given(c.participant.value) {
      if instance.participant !in db.participants {
        return Crashed;
      }
      var person := SetParticipantAttrs(db.participants[instance.participant], c.participant.value);
      var saved := db.SaveParticipant(instance.participant, person);
      if saved.Failure? {
        return Failed(saved.error);
      }
    }
    instance := SetBookingAttrs(instance, c.fields);
    db.SaveBooking(id, instance);
    r := Saved(id);
  }
}
