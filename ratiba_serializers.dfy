/**
 * `create` and `update` of the `RegistrationSerializer` of the `ratiba_events/base`
 * application, where both the event and the participant are nested data.
 */
module RatibaSerializers {
  import opened Wrappers
  import opened Clock
  import opened Models
  import opened Fields
  import Store
  import Db
  import opened BaseSerializers

  // ---------------------------------------------------------------- create

  /** Validated input of `create`: the nested event data, the nested participant, the own fields. */
  datatype RegistrationInput = RegistrationInput(event: Event, participant: Participant, fields: RegistrationPatch)

  /**
   * `RegistrationSerializer.create` as written: the participant is got or created, then
   * the registration is built with the event *data* in place of an Event instance, which
   * Django refuses with ValueError before any insert. Once the nested data is resolved to
   * an event id, the intended behaviour is `BaseSerializers.RegistrationCreation`.
   */
  ghost function RegistrationCreationAsWritten(t: Store.Tables, input: RegistrationInput): (out: (Outcome<RegistrationId>, Store.Tables))
    requires Store.Valid(t)
    ensures Store.Valid(out.1)
  {
    match Store.GetOrCreateExact(t, input.participant)
    case (Failure(err), t1) => (Failed(err), t1)
    case (Success(_), t1) => (Crashed, t1)
  }

  /**
   * `create` never inserts a registration; when the participant step succeeds the call
   * still fails, and a participant equal to the nested data is left behind.
   */
  lemma RegistrationCreationNeverSaves(t: Store.Tables, input: RegistrationInput)
    requires Store.Valid(t)
    ensures var (r, t1) := RegistrationCreationAsWritten(t, input);
            && !r.Saved?
            && t1.registrations == t.registrations && t1.events == t.events
            && (r == Crashed <==> Store.GetOrCreateExact(t, input.participant).0.Success?)
            && (r == Crashed ==> input.participant in t1.participants.Values)
            && (r.Failed? ==> t1 == t)
  {
    var got := Store.GetOrCreateExact(t, input.participant);
    if got.0.Success? {
      assert got.1.participants[got.0.value.0] == input.participant;
    }
  }

  method CreateRegistration(db: Db.Database, input: RegistrationInput) returns (r: Outcome<RegistrationId>)
    requires db.Valid()
    modifies db
    ensures db.Valid()
    ensures (r, db.State()) == RegistrationCreationAsWritten(old(db.State()), input)
  {
    var got := db.GetOrCreateExact(input.participant);
    if got.Failure? {
      return Failed(got.error);
    }
    r := Crashed;
  }

  // ---------------------------------------------------------------- update

  /** A nested event payload is truthy when it holds at least one field. */
  predicate EventGiven(d: EventPatch) {
    d.title.Some? || d.description.Some? || d.image.Some? || d.date.Some? || d.time.Some?
      || d.venue.Some? || d.charge.Some?
  }

  /** Validated input of `update`: the nested event and participant fields, and the own fields. */
  datatype RegistrationChanges = RegistrationChanges(event: Option<EventPatch>, participant: Option<ParticipantPatch>,
                                                     fields: RegistrationPatch)

  /**
   * `if event_data: setattr(...) for each item; instance.event.save()`: a truthy payload
   * is applied to event `e` and the row is saved.
   */
  ghost function SaveEventPatch(t: Store.Tables, e: EventId, d: Option<EventPatch>): (out: (Result<(), Store.DbError>, Store.Tables))
    requires Store.Valid(t) && e in t.events
    ensures Store.Valid(out.1)
    ensures out.0.Failure? ==> out.1 == t
    ensures out.0.Success? ==>
              out.1 == t.(events := t.events[e := if d.Some? then PatchEvent(t.events[e], d.value) else t.events[e]])
  {
    if d.Some? && EventGiven(d.value) then Store.SaveEvent(t, e, PatchEvent(t.events[e], d.value))
    else (Success(()), t)
  }

  /**
   * `RegistrationSerializer.update`: the participant payload is saved, then the event
   * payload, then the registration's own fields; the first failure ends the call and
   * what was already saved stays.
   */
  ghost function RegistrationUpdate(t: Store.Tables, id: RegistrationId, c: RegistrationChanges)
    : (out: (Outcome<RegistrationId>, Store.Tables))
    requires Store.Valid(t) && id in t.registrations
    ensures Store.Valid(out.1)
  {
    var reg := t.registrations[id];
    match SaveParticipantPatch(t, reg.participant, c.participant)
    case (Failure(err), t1) => (Failed(err), t1)
    case (Success(_), t1) =>
      match SaveEventPatch(t1, reg.event, c.event)
      case (Failure(err), t2) => (Failed(err), t2)
      case (Success(_), t2) => (Saved(id), Store.SaveRegistration(t2, id, PatchRegistration(reg, c.fields)))
  }

  /**
   * When the event cannot be saved the participant change already made stays: the
   * update is not atomic.
   */
  lemma RegistrationUpdateNotAtomic(t: Store.Tables, id: RegistrationId, c: RegistrationChanges)
    requires Store.Valid(t) && id in t.registrations
    requires SaveParticipantPatch(t, t.registrations[id].participant, c.participant).0.Success?
    ensures var t1 := SaveParticipantPatch(t, t.registrations[id].participant, c.participant).1;
            var (r, t2) := RegistrationUpdate(t, id, c);
            && (r.Failed? <==> c.event.Some? && EventGiven(c.event.value)
                               && !EventFits(PatchEvent(t.events[t.registrations[id].event], c.event.value)))
            && (r.Failed? ==> t2 == t1 && r.error == Store.DataError)
  {
  }

  /**
   * Event data that passed the serializer's length checks always saves, so an update
   * whose participant step succeeds succeeds.
   */
  lemma RegistrationUpdateValidEventSaves(t: Store.Tables, id: RegistrationId, c: RegistrationChanges)
    requires Store.Valid(t) && id in t.registrations
    requires c.event.Some? && c.event.value.title.Some? ==> |c.event.value.title.value| <= TitleLength
    requires c.event.Some? && c.event.value.venue.Some? ==> |c.event.value.venue.value| <= VenueLength
    requires SaveParticipantPatch(t, t.registrations[id].participant, c.participant).0.Success?
    ensures RegistrationUpdate(t, id, c).0 == Saved(id)
  {
    var reg := t.registrations[id];
    var t1 := SaveParticipantPatch(t, reg.participant, c.participant).1;
    if c.event.Some? {
      assert t1.events == t.events;
      PatchEventFits(t.events[reg.event], c.event.value);
    }
  }

  /**
   * A successful update keeps the registration's event and participant, sets the given
   * fields of the registration, of its event and of its participant, and nothing else.
   */
  lemma RegistrationUpdateSaved(t: Store.Tables, id: RegistrationId, c: RegistrationChanges)
    requires Store.Valid(t) && id in t.registrations
    ensures var (r, t3) := RegistrationUpdate(t, id, c);
            var reg := t.registrations[id];
            r.Saved? ==>
              && t3.registrations == t.registrations[id := PatchRegistration(reg, c.fields)]
              && t3.registrations[id].event == reg.event && t3.registrations[id].participant == reg.participant
              && t3.events == t.events[reg.event := if c.event.Some? then PatchEvent(t.events[reg.event], c.event.value)
                                                      else t.events[reg.event]]
              && t3.participants == t.participants[reg.participant := if c.participant.Some? then PatchParticipant(t.participants[reg.participant], c.participant.value)
                                                                  else t.participants[reg.participant]]
  {
    var reg := t.registrations[id];
    var (r1, t1) := SaveParticipantPatch(t, reg.participant, c.participant);
    if r1.Success? {
      var (r2, t2) := SaveEventPatch(t1, reg.event, c.event);
      if r2.Success? {
        assert t2.participants == t1.participants && t2.registrations == t.registrations;
        assert t1.events == t.events;
      }
    }
  }

  method UpdateRegistration(db: Db.Database, id: RegistrationId, c: RegistrationChanges) returns (r: Outcome<RegistrationId>)
    requires db.Valid() && id in db.registrations
    modifies db
    ensures db.Valid()
    ensures (r, db.State()) == RegistrationUpdate(old(db.State()), id, c)
  {
    var instance := db.registrations[id];
    if c.participant.Some? && Given(c.participant.value) {
      var person := SetParticipantAttrs(db.participants[instance.participant], c.participant.value);
      var saved := db.SaveParticipant(instance.participant, person);
      if saved.Failure? {
        return Failed(saved.error);
      }
    }
    if c.event.Some? && EventGiven(c.event.value) {
      var event := SetEventAttrs(db.events[instance.event], c.event.value);
      var saved := db.SaveEvent(instance.event, event);
      if saved.Failure? {
        return Failed(saved.error);
      }
    }
    instance := SetRegistrationAttrs(instance, c.fields);
    db.SaveRegistration(id, instance);
    r := Saved(id);
  }
}
