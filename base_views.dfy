/**
 * The views of the `base` application (`base/views.py`): registration, the participant
 * list of an event, the past and future event lists, the image upload and the two
 * delete views. Each view that writes is a method on the database object; each query is
 * a function of the tables.
 */
module BaseViews {
  import opened Wrappers
  import opened Clock
  import opened Models
  import opened Store
  import opened Registrar
  import Db

  // ---------------------------------------------------------------- RegisterEvent

  /**
   * `RegisterEvent.post`: a new participant is built from the serializer's validated
   * data, and looked up by the submitted email.
   */
  method RegisterEvent(db: Db.Database, eventId: Option<nat>, s: Submission,
                       registrationAccepted: bool, now: Instant) returns (r: RegisterOutcome)
    requires db.Valid()
    modifies db
    ensures db.Valid()
    ensures (r, db.State()) == Register(old(db.State()), eventId, s, s.validated, registrationAccepted, now)
  {
    if eventId.None? || eventId.value !in db.events {
      return EventNotFound;
    }
    var e := eventId.value;
    var event := db.events[e];
    if MakeAware(DateTime(event.date, event.time)) < now {
      return RegistrationClosed;
    }
    if !(s.wellFormed && ParticipantFits(s.validated)) {
      return ParticipantInvalid;
    }
    var got := db.GetOrCreateByEmail(s.raw.email, s.validated);
    if got.Failure? {
      return StorageFailure(got.error);
    }
    var p := got.value.0;
    assert p in db.participants by {
      if !EmailTaken(old(db.participants), s.raw.email) {
        assert CreateParticipant(old(db.State()), s.validated).0.Success?;
      }
    }
    var taken := db.IsRegistered(e, p);
    if taken {
      return AlreadyRegistered;
    }
    if !registrationAccepted {
      return RegistrationRejected;
    }
    var created := db.CreateRegistration(Registration(e, p, now, DefaultStatus));
    match created
    case Success(id) => r := Created(id);
    case Failure(err) => r := StorageFailure(err);
  }

  /**
   * In this copy of the view a new participant takes the validated email. When that is
   * the submitted email, repeating a successful request is refused as a duplicate. When
   * the serializer altered it (trimmed whitespace, say), the repeat finds no participant
   * under the submitted email and its insert collides with an IntegrityError instead.
   */
  lemma RegisterEventTwice(t: Tables, e: EventId, s: Submission, registrationAccepted: bool, now: Instant)
    requires Valid(t) && s.validated.email == s.raw.email
    requires Register(t, Some(e), s, s.validated, registrationAccepted, now).0.Created?
    ensures var t1 := Register(t, Some(e), s, s.validated, registrationAccepted, now).1;
            Register(t1, Some(e), s, s.validated, registrationAccepted, now) == (AlreadyRegistered, t1)
  {
    RegisterTwice(t, e, s, s.validated, registrationAccepted, now);
  }

  // ---------------------------------------------------------------- ListParticipants

  /**
   * `ListParticipants.get_queryset`: the participants with a registration for event `pk`;
   * none when `pk` is absent or 0 (both falsy).
   */
  function ListParticipants(t: Tables, pk: Option<nat>): (ps: set<ParticipantId>)
    ensures forall p :: p in ps <==>
              pk.Some? && pk.value != 0 && p in t.participants && Registered(t.registrations, pk.value, p)
  {
    if pk.None? || pk.value == 0 then {} else ParticipantsOf(t, pk.value)
  }

  // ---------------------------------------------------------------- past and future events

  /** The filter `Q(date__gt=d) | (Q(date=d) & Q(time__gte=t))` of `FutureEventList`. */
  predicate StartsAtOrAfter(e: Event, clock: DateTime)
    ensures StartsAtOrAfter(e, clock) <==> !Before(e.Start(), clock)
  {
    e.date > clock.date || (e.date == clock.date && e.time >= clock.time)
  }

  /**
   * The events the past list shows when the clock reads `clock`: those whose start comes
   * strictly before it.
   */
  function PastEventsAt(t: Tables, clock: DateTime): (ks: set<EventId>)
    ensures forall k :: k in ks <==> k in t.events && Ticks(t.events[k].Start()) < Ticks(clock)
  {
    assert forall k :: k in t.events ==> (Before(t.events[k].Start(), clock) <==> Ticks(t.events[k].Start()) < Ticks(clock)) by {
      forall k | k in t.events {
        TicksOrder(t.events[k].Start(), clock);
      }
    }
    set k | k in t.events && Before(t.events[k].Start(), clock)
  }

  /**
   * The events the future list shows when the clock reads `clock`: those starting at it
   * or later.
   */
  function FutureEventsAt(t: Tables, clock: DateTime): (ks: set<EventId>)
    ensures forall k :: k in ks <==> k in t.events && Ticks(clock) <= Ticks(t.events[k].Start())
  {
    assert forall k :: k in t.events ==> (StartsAtOrAfter(t.events[k], clock) <==> Ticks(clock) <= Ticks(t.events[k].Start())) by {
      forall k | k in t.events {
        TicksOrder(t.events[k].Start(), clock);
      }
    }
    set k | k in t.events && StartsAtOrAfter(t.events[k], clock)
  }

  /** Whatever the clock reads, every event is in exactly one of the two lists. */
  lemma ListsPartitionEvents(t: Tables, clock: DateTime)
    ensures PastEventsAt(t, clock) + FutureEventsAt(t, clock) == t.events.Keys
    ensures PastEventsAt(t, clock) * FutureEventsAt(t, clock) == {}
  {
    forall k | k in t.events
      ensures k in PastEventsAt(t, clock) <==> k !in FutureEventsAt(t, clock)
    {
      var e := t.events[k];
      assert Before(e.Start(), clock) <==> !StartsAtOrAfter(e, clock);
    }
  }

  /** `PastEventList` as written: the event's wall-clock date and time against the UTC parts of now. */
  function PastEventListAsWritten(t: Tables, now: Instant): (ks: set<EventId>)
    ensures forall k :: k in ks <==> k in t.events && Ticks(t.events[k].Start()) < now
  {
    PastEventsAt(t, UtcTime(now))
  }

  /** `FutureEventList` as written, against the UTC parts of now. */
  function FutureEventListAsWritten(t: Tables, now: Instant): (ks: set<EventId>)
    ensures forall k :: k in ks <==> k in t.events && now <= Ticks(t.events[k].Start())
  {
    FutureEventsAt(t, UtcTime(now))
  }

  /**
   * An event starting at 10:00 Nairobi time, three hours after 06:00: at 08:00 UTC (11:00
   * in Nairobi) registration for it is closed, yet the future list as written still
   * shows it and the past list does not.
   */
  lemma AsWrittenListsClosedEventAsFuture()
    ensures exists t: Tables, now: Instant, k: EventId ::
              && Valid(t) && k in t.events && IsClosed(t.events[k], now)
              && k in FutureEventListAsWritten(t, now) && k !in PastEventListAsWritten(t, now)
  {
    var day := 20_000;
    var e := Event("Launch", "", None, day, 36_000_000_000, "Nairobi", DefaultCharge);
    var t := Empty().(events := map[1 := e], nextEvent := 2);
    var now := day * TicksPerDay + 28_800_000_000;
    assert UtcTime(now) == DateTime(day, 28_800_000_000) by {
      SplitTicks(DateTime(day, 28_800_000_000));
    }
    assert IsClosed(e, now);
    assert 1 in FutureEventListAsWritten(t, now);
  }

  /**
   * The lists as written lag the registration rule by the three-hour offset in one
   * direction only: they never show an event as past while registration is still open.
   */
  lemma AsWrittenPastListIsClosed(t: Tables, now: Instant)
    ensures forall k :: k in PastEventListAsWritten(t, now) ==> IsClosed(t.events[k], now)
  {
    forall k | k in PastEventListAsWritten(t, now)
      ensures IsClosed(t.events[k], now)
    {
      TicksOrder(t.events[k].Start(), UtcTime(now));
    }
  }

  /** `PastEventList`, reading now on the Nairobi clock like the registration rule. */
  function PastEventList(t: Tables, now: Instant): (ks: set<EventId>)
    ensures forall k :: k in ks <==> k in t.events && MakeAware(t.events[k].Start()) < now
  {
    PastEventsAt(t, LocalTime(now))
  }

  /** `FutureEventList`, reading now on the Nairobi clock like the registration rule. */
  function FutureEventList(t: Tables, now: Instant): (ks: set<EventId>)
    ensures forall k :: k in ks <==> k in t.events && now <= MakeAware(t.events[k].Start())
  {
    FutureEventsAt(t, LocalTime(now))
  }

  /**
   * With now read on the Nairobi clock the past list holds exactly the events whose
   * registration is closed, and the future list exactly those still open.
   */
  lemma ListsMatchRegistration(t: Tables, now: Instant)
    ensures forall k :: k in PastEventList(t, now) <==> k in t.events && IsClosed(t.events[k], now)
    ensures forall k :: k in FutureEventList(t, now) <==> k in t.events && !IsClosed(t.events[k], now)
  {
    ListsPartitionEvents(t, LocalTime(now));
    forall k | k in t.events
      ensures k in PastEventList(t, now) <==> IsClosed(t.events[k], now)
    {
      BeforeLocalIffEarlier(t.events[k].Start(), now);
    }
  }

  // ---------------------------------------------------------------- EventImageUploadView

  /** How an image upload ends. */
  datatype UploadOutcome =
    | EventMissing  // Event.DoesNotExist escapes the view (500)
    | NoImage       // 400, "No image provided"
    | Uploaded      // 200, "Image uploaded successfully"

  /** An uploaded file is truthy when it is present and has a non-empty name. */
  predicate Provided(file: Option<string>) {
    file.Some? && file.value != ""
  }

  /** `EventImageUploadView.post` on the tables: the event's image becomes the uploaded file. */
  function ImageUpload(t: Tables, eventId: nat, file: Option<string>): (out: (UploadOutcome, Tables))
    requires Valid(t)
    ensures Valid(out.1)
  {
    if eventId !in t.events then (EventMissing, t)
    else if !Provided(file) then (NoImage, t)
    else
      var saved := SaveEvent(t, eventId, t.events[eventId].(image := file));
      (Uploaded, saved.1)
  }

  /**
   * An upload succeeds exactly when the event exists and a file was sent; it replaces
   * that event's image and nothing else, and any other outcome writes nothing.
   */
  lemma ImageUploadChangesOnlyImage(t: Tables, eventId: nat, file: Option<string>)
    requires Valid(t)
    ensures var (r, t1) := ImageUpload(t, eventId, file);
            && (r == Uploaded <==> eventId in t.events && Provided(file))
            && (r != Uploaded ==> t1 == t)
            && (r == Uploaded ==>
                  && t1.events.Keys == t.events.Keys
                  && t1.events[eventId].image == file
                  && t1.events[eventId] == t.events[eventId].(image := t1.events[eventId].image)
                  && (forall k :: k in t.events && k != eventId ==> t1.events[k] == t.events[k])
                  && t1 == t.(events := t1.events))
  {
  }

  method UploadEventImage(db: Db.Database, eventId: nat, file: Option<string>) returns (r: UploadOutcome)
    requires db.Valid()
    modifies db
    ensures db.Valid()
    ensures (r, db.State()) == ImageUpload(old(db.State()), eventId, file)
  {
    if eventId !in db.events {
      return EventMissing;
    }
    var event := db.events[eventId];
    if !(file.Some? && file.value != "") {
      return NoImage;
    }
    event := event.(image := file);
    var saved := db.SaveEvent(eventId, event);
    r := Uploaded;
  }

  // ---------------------------------------------------------------- delete views

  /** `DeleteEvent.delete`: 404 for an unknown id, else the event goes with its registrations. */
  method DeleteEvent(db: Db.Database, id: nat) returns (found: bool)
    requires db.Valid()
    modifies db
    ensures db.Valid()
    ensures found <==> id in old(db.events)
    ensures db.State() == if found then Store.DeleteEvent(old(db.State()), id) else old(db.State())
  {
    if id !in db.events {
      return false;
    }
    db.DeleteEvent(id);
    found := true;
  }

  /** `DeleteParticipant.delete`: 404 for an unknown id, else the participant goes with its registrations. */
  method DeleteParticipant(db: Db.Database, id: nat) returns (found: bool)
    requires db.Valid()
    modifies db
    ensures db.Valid()
    ensures found <==> id in old(db.participants)
    ensures db.State() == if found then Store.DeleteParticipant(old(db.State()), id) else old(db.State())
  {
    if id !in db.participants {
      return false;
    }
    db.DeleteParticipant(id);
    found := true;
  }

  /**
   * Once an event is deleted it is in neither event list and lists no participants, while
   * every other event keeps its participants.
   */
  lemma DeletedEventUnlisted(t: Tables, id: EventId, now: Instant)
    requires Valid(t) && id in t.events
    ensures var t1 := Store.DeleteEvent(t, id);
            && id !in PastEventList(t1, now) && id !in FutureEventList(t1, now)
            && ListParticipants(t1, Some(id)) == {}
            && forall e :: e != id ==> ListParticipants(t1, Some(e)) == ListParticipants(t, Some(e))
  {
    var t1 := Store.DeleteEvent(t, id);
    forall e | e != id
      ensures ListParticipants(t1, Some(e)) == ListParticipants(t, Some(e))
    {
      forall p
        ensures Registered(t1.registrations, e, p) <==> Registered(t.registrations, e, p)
      {
        if Registered(t.registrations, e, p) {
          var r :| r in t.registrations && t.registrations[r].event == e && t.registrations[r].participant == p;
          assert r in t1.registrations;
        }
      }
    }
  }

  /** Once a participant is deleted no event lists them; every other listing is unchanged. */
  lemma DeletedParticipantUnlisted(t: Tables, id: ParticipantId)
    requires Valid(t) && id in t.participants
    ensures var t1 := Store.DeleteParticipant(t, id);
            forall e :: ListParticipants(t1, Some(e)) == ListParticipants(t, Some(e)) - {id}
  {
    var t1 := Store.DeleteParticipant(t, id);
    forall e
      ensures ListParticipants(t1, Some(e)) == ListParticipants(t, Some(e)) - {id}
    {
      forall p | p != id
        ensures Registered(t1.registrations, e, p) <==> Registered(t.registrations, e, p)
      {
        if Registered(t.registrations, e, p) {
          var r :| r in t.registrations && t.registrations[r].event == e && t.registrations[r].participant == p;
          assert r in t1.registrations;
        }
      }
    }
  }
}
