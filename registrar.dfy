/**
 * The decision sequence of `RegisterEvent.post`, shared by both copies of the view:
 * event lookup, the closing test, participant validation, get-or-create by email, the
 * duplicate-pair check and the insertion, each step stopping the request with its own
 * outcome. `Register` states the whole sequence on the tables; the lemmas below it
 * state what it guarantees.
 */
module Registrar {
  import opened Wrappers
  import opened Clock
  import opened Models
  import opened Store

  /**
   * Registration is closed once the event's start, read as Nairobi wall-clock time,
   * is strictly before now. An event starting exactly now is still open.
   */
  predicate IsClosed(e: Event, now: Instant)
    ensures IsClosed(e, now) <==> Before(e.Start(), LocalTime(now))
  {
    BeforeLocalIffEarlier(e.Start(), now);
    MakeAware(e.Start()) < now
  }

  /** The closing test is exactly "the start is strictly earlier than now". */
  lemma ClosedIffStartEarlier(e: Event, now: Instant)
    ensures IsClosed(e, now) <==> MakeAware(e.Start()) < now
    ensures MakeAware(e.Start()) == now ==> !IsClosed(e, now)
    ensures IsClosed(e, now) <==> Before(e.Start(), LocalTime(now))
  {
    BeforeLocalIffEarlier(e.Start(), now);
  }

  /**
   * The `participant` object of the request: the submitted dictionary, the serializer's
   * validated data, and whether the serializer's own checks (required keys present and
   * not blank, a syntactically valid email) passed.
   */
  datatype Submission = Submission(raw: Participant, validated: Participant, wellFormed: bool)

  /** `ParticipantSerializer(data=...).is_valid()`: its checks, plus the model's `max_length`s. */
  predicate Accepted(s: Submission) {
    s.wellFormed && ParticipantFits(s.validated)
  }

  /** How a registration request ends, with the response it produces. */
  datatype RegisterOutcome =
    | EventNotFound                   // 404 from get_object_or_404
    | RegistrationClosed              // 400, "Registration is closed."
    | ParticipantInvalid              // 400 with the participant serializer's errors
    | StorageFailure(error: DbError)  // an exception from the database (500)
    | AlreadyRegistered               // 400, "Participant is already registered for this event."
    | RegistrationRejected            // 400 with the registration serializer's errors
    | Created(id: RegistrationId)     // 201 with the new registration
    | Crashed                         // another exception escapes the view (500)

  /**
   * One registration request on tables `t`. `defaults` is what `get_or_create` builds a
   * new participant from; `registrationAccepted` is the verdict of the registration
   * serializer on `{'event': ..., 'participant': ...}`.
   */
  ghost function Register(t: Tables, eventId: Option<nat>, s: Submission, defaults: Participant,
                          registrationAccepted: bool, now: Instant): (out: (RegisterOutcome, Tables))
    requires Valid(t)
    ensures Valid(out.1)
  {
    if eventId.None? || eventId.value !in t.events then (EventNotFound, t)
    else if IsClosed(t.events[eventId.value], now) then (RegistrationClosed, t)
    else if !Accepted(s) then (ParticipantInvalid, t)
    else
      var e := eventId.value;
      match GetOrCreateByEmail(t, s.raw.email, defaults)
      case (Failure(err), t1) => (StorageFailure(err), t1)
      case (Success((p, _)), t1) =>
        assert p in t1.participants by {
          if EmailTaken(t.participants, s.raw.email) {
          } else {
            assert CreateParticipant(t, defaults).0.Success?;
          }
        }
        if Registered(t1.registrations, e, p) then (AlreadyRegistered, t1)
        else if !registrationAccepted then (RegistrationRejected, t1)
        else
          match CreateRegistration(t1, Registration(e, p, now, DefaultStatus))
          case (Success(id), t2) => (Created(id), t2)
          case (Failure(err), t2) => (StorageFailure(err), t2)
  }

  /** An unknown event id is not found, and nothing is written. */
  lemma RegisterUnknownEvent(t: Tables, eventId: Option<nat>, s: Submission, defaults: Participant,
                             registrationAccepted: bool, now: Instant)
    requires Valid(t)
    requires eventId.None? || eventId.value !in t.events
    ensures Register(t, eventId, s, defaults, registrationAccepted, now) == (EventNotFound, t)
  {
  }

  /**
   * A known event is refused as closed exactly when its start is before now, whatever
   * the participant data; nothing is written then.
   */
  lemma RegisterClosedIff(t: Tables, e: EventId, s: Submission, defaults: Participant,
                          registrationAccepted: bool, now: Instant)
    requires Valid(t) && e in t.events
    ensures var out := Register(t, Some(e), s, defaults, registrationAccepted, now);
            (out.0 == RegistrationClosed <==> IsClosed(t.events[e], now))
            && (out.0 == RegistrationClosed ==> out.1 == t)
  {
    var out := Register(t, Some(e), s, defaults, registrationAccepted, now);
    if !IsClosed(t.events[e], now) && Accepted(s) {
      match GetOrCreateByEmail(t, s.raw.email, defaults)
      case (Failure(err), t1) =>
      case (Success((p, _)), t1) =>
        assert out.0 != RegistrationClosed;
    }
  }

  /** Rejected participant data on an open event writes nothing. */
  lemma RegisterInvalidParticipant(t: Tables, e: EventId, s: Submission, defaults: Participant,
                                   registrationAccepted: bool, now: Instant)
    requires Valid(t) && e in t.events && !IsClosed(t.events[e], now)
    requires !Accepted(s)
    ensures Register(t, Some(e), s, defaults, registrationAccepted, now) == (ParticipantInvalid, t)
  {
  }

  /**
   * Past validation, the participant is found by the submitted email alone: an existing
   * one is reused and the Participants table is left as it was, whatever the defaults.
   */
  lemma RegisterReusesParticipant(t: Tables, e: EventId, s: Submission, defaults: Participant,
                                  registrationAccepted: bool, now: Instant)
    requires Valid(t) && e in t.events && !IsClosed(t.events[e], now) && Accepted(s)
    requires EmailTaken(t.participants, s.raw.email)
    ensures var out := Register(t, Some(e), s, defaults, registrationAccepted, now);
            out.1.participants == t.participants
            && (out.0 == AlreadyRegistered <==> Registered(t.registrations, e, OwnerOf(t.participants, s.raw.email).value))
  {
  }

  /**
   * An unseen email creates exactly one participant, built from the defaults; it is kept
   * even when the registration itself is then refused (nothing is rolled back).
   */
  lemma RegisterCreatesParticipant(t: Tables, e: EventId, s: Submission, defaults: Participant,
                                   registrationAccepted: bool, now: Instant)
    requires Valid(t) && e in t.events && !IsClosed(t.events[e], now) && Accepted(s)
    requires !EmailTaken(t.participants, s.raw.email)
    requires ParticipantFits(defaults) && !EmailTaken(t.participants, defaults.email)
    ensures var out := Register(t, Some(e), s, defaults, registrationAccepted, now);
            exists p: ParticipantId :: p !in t.participants && out.1.participants == t.participants[p := defaults]
  {
    var (r1, t1) := CreateParticipant(t, defaults);
    assert t1.participants == t.participants[r1.value := defaults];
  }

  /** A pair that is already registered is refused, and the Registrations table is unchanged. */
  lemma RegisterDuplicate(t: Tables, eventId: Option<nat>, s: Submission, defaults: Participant,
                          registrationAccepted: bool, now: Instant)
    requires Valid(t)
    ensures var out := Register(t, eventId, s, defaults, registrationAccepted, now);
            out.0 == AlreadyRegistered ==> out.1.registrations == t.registrations && out.1.events == t.events
  {
    if eventId.Some? && eventId.value in t.events && !IsClosed(t.events[eventId.value], now) && Accepted(s) {
      var got := GetOrCreateByEmail(t, s.raw.email, defaults);
      if got.0.Success? {
        assert got.1.registrations == t.registrations && got.1.events == t.events;
      }
    }
  }

  /**
   * On success exactly one registration is added: a fresh id, linking the event and the
   * participant with the submitted email, stamped now and pending; no other row of
   * Registrations, Events or Bookings changes, and every existing participant keeps its row.
   */
  lemma RegisterSuccess(t: Tables, e: EventId, s: Submission, defaults: Participant,
                        registrationAccepted: bool, now: Instant)
    requires Valid(t)
    ensures var out := Register(t, Some(e), s, defaults, registrationAccepted, now);
            out.0.Created? ==>
              && e in t.events && !IsClosed(t.events[e], now) && Accepted(s) && registrationAccepted
              && out.0.id !in t.registrations
              && out.1.events == t.events
              && out.1.bookings == t.bookings
              && (forall q :: q in t.participants ==> q in out.1.participants && out.1.participants[q] == t.participants[q])
              && var reg := out.1.registrations[out.0.id];
                 && out.1.registrations == t.registrations[out.0.id := reg]
                 && reg.event == e && reg.timestamp == now && reg.status == Pending
                 && reg.participant in out.1.participants
                 && out.1.participants[reg.participant].email in {s.raw.email, defaults.email}
  {
  }

  /**
   * With a known, open event and accepted data, a request registers unless the database
   * refuses the participant, the pair is already registered, or the registration data
   * is rejected.
   */
  lemma RegisterSucceedsIff(t: Tables, e: EventId, s: Submission, defaults: Participant,
                            registrationAccepted: bool, now: Instant)
    requires Valid(t) && e in t.events && !IsClosed(t.events[e], now) && Accepted(s)
    ensures var out := Register(t, Some(e), s, defaults, registrationAccepted, now);
            var got := GetOrCreateByEmail(t, s.raw.email, defaults);
            out.0.Created? <==>
              got.0.Success? && !Registered(t.registrations, e, got.0.value.0) && registrationAccepted
  {
    var got := GetOrCreateByEmail(t, s.raw.email, defaults);
    if got.0.Success? {
      assert got.1.registrations == t.registrations;
    }
  }

  /**
   * Registering the same email for the same event twice in a row: the first request
   * registers, the second is refused as a duplicate and writes nothing. (When `defaults`
   * carries another email than the one looked up, the second request instead finds no
   * participant under the submitted email and its insert collides.)
   */
  lemma RegisterTwice(t: Tables, e: EventId, s: Submission, defaults: Participant,
                      registrationAccepted: bool, now: Instant)
    requires Valid(t)
    requires defaults.email == s.raw.email
    requires Register(t, Some(e), s, defaults, registrationAccepted, now).0.Created?
    ensures var t1 := Register(t, Some(e), s, defaults, registrationAccepted, now).1;
            Register(t1, Some(e), s, defaults, registrationAccepted, now) == (AlreadyRegistered, t1)
  {
    var (first, t1) := Register(t, Some(e), s, defaults, registrationAccepted, now);
    var reg := t1.registrations[first.id];
    assert t1.participants[reg.participant].email == s.raw.email;
    assert EmailTaken(t1.participants, s.raw.email);
    assert OwnerOf(t1.participants, s.raw.email) == Some(reg.participant);
    assert Registered(t1.registrations, e, reg.participant);
  }

  /** After a successful registration the participant is listed for the event. */
  lemma RegisteredIsListed(t: Tables, e: EventId, s: Submission, defaults: Participant,
                           registrationAccepted: bool, now: Instant)
    requires Valid(t)
    requires Register(t, Some(e), s, defaults, registrationAccepted, now).0.Created?
    ensures var (out, t1) := Register(t, Some(e), s, defaults, registrationAccepted, now);
            t1.registrations[out.id].participant in ParticipantsOf(t1, e)
  {
    var (out, t1) := Register(t, Some(e), s, defaults, registrationAccepted, now);
    var p := t1.registrations[out.id].participant;
    assert Registered(t1.registrations, e, p);
  }
}
