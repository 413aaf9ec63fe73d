/**
 * The views of the `ratiba_events/base` application: registration, where a new
 * participant is built from the submitted dictionary itself, and the participant list
 * of an event, keyed by a required URL argument.
 */
module RatibaViews {
  import opened Wrappers
  import opened Clock
  import opened Models
  import opened Store
  import opened Registrar
  import BaseViews
  import Db

  /**
   * `RegisterEvent.post`: the same sequence as in `base`, except that `get_or_create`
   * takes the submitted participant data, not the validated data, as its defaults.
   */
  method RegisterEvent(db: Db.Database, eventId: Option<nat>, s: Submission,
                       registrationAccepted: bool, now: Instant) returns (r: RegisterOutcome)
    requires db.Valid()
    modifies db
    ensures db.Valid()
    ensures (r, db.State()) == Register(old(db.State()), eventId, s, s.raw, registrationAccepted, now)
  {
    if eventId.None? || eventId.value !in db.events {
      return EventNotFound;
    }
    var e := eventId.value;
    var event := db.events[e];
    if MakeAware(DateTime(event.date, event.time)) < now {
      return RegistrationClosed;
    }
    if !(s.wellFormed && ParticipantFits(s.validated)) {
      return ParticipantInvalid;
    }
    var got := db.GetOrCreateByEmail(s.raw.email, s.raw);
    if got.Failure? {
      return StorageFailure(got.error);
    }
    var p := got.value.0;
    assert p in db.participants by {
      if !EmailTaken(old(db.participants), s.raw.email) {
        assert CreateParticipant(old(db.State()), s.raw).0.Success?;
      }
    }
    var taken := db.IsRegistered(e, p);
    if taken {
      return AlreadyRegistered;
    }
    if !registrationAccepted {
      return RegistrationRejected;
    }
    var created := db.CreateRegistration(Registration(e, p, now, DefaultStatus));
    match created
    case Success(id) => r := Created(id);
    case Failure(err) => r := StorageFailure(err);
  }

  /** The attributes of an Event instance: its model fields and its primary key. */
  const EventAttributes: set<string> := {"id", "title", "description", "image", "date", "time", "venue", "charge"}

  /**
   * `RegisterEvent.post` as written, on an Event whose instances carry the attributes
   * `attrs`: after `get_object_or_404`, the closing test reads `event.event_datetime`,
   * and AttributeError escapes when there is no such attribute.
   */
  ghost function RegisterAsWritten(t: Tables, attrs: set<string>, eventId: Option<nat>, s: Submission,
                                   registrationAccepted: bool, now: Instant): (out: (RegisterOutcome, Tables))
    requires Valid(t)
    ensures Valid(out.1)
    ensures eventId.None? || eventId.value !in t.events ==> out == (EventNotFound, t)
    ensures eventId.Some? && eventId.value in t.events && "event_datetime" !in attrs ==> out == (Crashed, t)
  {
    if eventId.None? || eventId.value !in t.events then (EventNotFound, t)
    else if "event_datetime" !in attrs then (Crashed, t)
    else Register(t, eventId, s, s.raw, registrationAccepted, now)
  }

  /**
   * Events have no `event_datetime`, so as written no request ever registers: an unknown
   * event is a 404, a known one raises, and neither writes anything.
   */
  lemma RegisterAsWrittenNeverRegisters(t: Tables, eventId: Option<nat>, s: Submission,
                                        registrationAccepted: bool, now: Instant)
    requires Valid(t)
    ensures var out := RegisterAsWritten(t, EventAttributes, eventId, s, registrationAccepted, now);
            && out.1 == t
            && !out.0.Created?
            && (out.0 == Crashed <==> eventId.Some? && eventId.value in t.events)
  {
  }

  /**
   * A participant created here is stored exactly as submitted, so submitted text that
   * passed validation but does not fit a column fails in the database instead of being
   * refused with the serializer's errors.
   */
  lemma RegisterEventStoresSubmittedData(t: Tables, e: EventId, s: Submission,
                                         registrationAccepted: bool, now: Instant)
    requires Valid(t) && e in t.events && !IsClosed(t.events[e], now) && Accepted(s)
    requires !EmailTaken(t.participants, s.raw.email)
    ensures var (r, t1) := Register(t, Some(e), s, s.raw, registrationAccepted, now);
            && (!ParticipantFits(s.raw) <==> r == StorageFailure(DataError))
            && (ParticipantFits(s.raw) ==> exists p :: p in t1.participants && p !in t.participants && t1.participants[p] == s.raw)
  {
    if ParticipantFits(s.raw) {
      var (c, t1) := CreateParticipant(t, s.raw);
      assert t1.participants[c.value] == s.raw;
    }
  }

  /**
   * Repeating a successful request is refused as a duplicate: the stored email is the
   * submitted one.
   */
  lemma RegisterEventTwice(t: Tables, e: EventId, s: Submission, registrationAccepted: bool, now: Instant)
    requires Valid(t)
    requires Register(t, Some(e), s, s.raw, registrationAccepted, now).0.Created?
    ensures var t1 := Register(t, Some(e), s, s.raw, registrationAccepted, now).1;
            Register(t1, Some(e), s, s.raw, registrationAccepted, now) == (AlreadyRegistered, t1)
  {
    RegisterTwice(t, e, s, s.raw, registrationAccepted, now);
  }

  /** `ListParticipants.get_queryset`: the participants with a registration for `event_id`. */
  function ListParticipants(t: Tables, eventId: nat): (ps: set<ParticipantId>)
    ensures forall p :: p in ps <==> p in t.participants && Registered(t.registrations, eventId, p)
  {
    ParticipantsOf(t, eventId)
  }

  /**
   * The two participant lists agree on every event id: the `base` copy's falsy check
   * only ever rejects id 0, which no event has.
   */
  lemma ListParticipantsAgree(t: Tables, eventId: nat)
    requires Valid(t)
    ensures ListParticipants(t, eventId) == BaseViews.ListParticipants(t, Some(eventId))
  {
  }
}
