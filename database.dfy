/**
 * The database as the views use it: an object whose tables change in place. Each
 * method issues one ORM statement and is proved to change the tables exactly as the
 * matching function of module Store says.
 */
module Db {
  import opened Wrappers
  import opened Clock
  import opened Models
  import Store

  class Database {
    var events: map<EventId, Event>
    var participants: map<ParticipantId, Participant>
    var registrations: map<RegistrationId, Registration>
    var bookings: map<BookingId, Booking>
    var nextEvent: nat
    var nextParticipant: nat
    var nextRegistration: nat
    var nextBooking: nat

    /** The current contents of every table. */
    function State(): Store.Tables
      reads this
    {
      Store.Tables(events, participants, registrations, bookings,
                   nextEvent, nextParticipant, nextRegistration, nextBooking)
    }

    ghost predicate Valid()
      reads this
    {
      Store.Valid(State())
    }

    constructor ()
      ensures Valid() && State() == Store.Empty()
    {
      events, participants, registrations, bookings := map[], map[], map[], map[];
      nextEvent, nextParticipant, nextRegistration, nextBooking := 1, 1, 1, 1;
    }

    method AddEvent(e: Event) returns (r: Result<EventId, Store.DbError>)
      requires Valid()
      modifies this
      ensures Valid()
      ensures (r, State()) == Store.AddEvent(old(State()), e)
    {
      if !EventFits(e) {
        return Failure(Store.DataError);
      }
      r := Success(nextEvent);
      events := events[nextEvent := e];
      nextEvent := nextEvent + 1;
      assert (r, State()) == Store.AddEvent(old(State()), e);
    }

    /**
     * The `Participant.objects.get(email=...)` lookup inside `get_or_create`: scans the
     * participants for the email; None for DoesNotExist.
     */
    method FindByEmail(email: string) returns (r: Option<ParticipantId>)
      requires Valid()
      ensures r == Store.OwnerOf(participants, email)
      ensures r.Some? ==> r.value in participants && participants[r.value].email == email
    {
      var unseen := participants.Keys;
      while unseen != {}
        invariant unseen <= participants.Keys
        invariant forall q :: q in participants && q !in unseen ==> participants[q].email != email
        decreases unseen
      {
        var q :| q in unseen;
        if participants[q].email == email {
          return Some(q);
        }
        unseen := unseen - {q};
      }
      r := None;
    }

    method CreateParticipant(p: Participant) returns (r: Result<ParticipantId, Store.DbError>)
      requires Valid()
      modifies this
      ensures Valid()
      ensures (r, State()) == Store.CreateParticipant(old(State()), p)
    {
      if !ParticipantFits(p) {
        return Failure(Store.DataError);
      }
      if exists q :: q in participants && participants[q].email == p.email {
        return Failure(Store.IntegrityError);
      }
      r := Success(nextParticipant);
      participants := participants[nextParticipant := p];
      nextParticipant := nextParticipant + 1;
      assert (r, State()) == Store.CreateParticipant(old(State()), p);
    }

    method GetOrCreateByEmail(email: string, defaults: Participant) returns (r: Result<(ParticipantId, bool), Store.DbError>)
      requires Valid()
      modifies this
      ensures Valid()
      ensures (r, State()) == Store.GetOrCreateByEmail(old(State()), email, defaults)
    {
      var found := FindByEmail(email);
      if found.Some? {
        return Success((found.value, false));
      }
      var created := CreateParticipant(defaults);
      match created
      case Success(id) => r := Success((id, true));
      case Failure(err) => r := Failure(err);
    }

    method GetOrCreateExact(p: Participant) returns (r: Result<(ParticipantId, bool), Store.DbError>)
      requires Valid()
      modifies this
      ensures Valid()
      ensures (r, State()) == Store.GetOrCreateExact(old(State()), p)
    {
      var found := FindByEmail(p.email);
      if found.Some? && participants[found.value] == p {
        return Success((found.value, false));
      }
      var created := CreateParticipant(p);
      match created
      case Success(id) => r := Success((id, true));
      case Failure(err) => r := Failure(err);
    }

    /**
     * `Registration.objects.filter(event=e, participant=p).exists()`: scans the
     * registrations until one links the pair.
     */
    method IsRegistered(e: EventId, p: ParticipantId) returns (b: bool)
      ensures b == Store.Registered(registrations, e, p)
      ensures b <==> p in Store.RegisteredIds(registrations, e)
    {
      var unseen := registrations.Keys;
      while unseen != {}
        invariant unseen <= registrations.Keys
        invariant forall r :: r in registrations && r !in unseen ==>
                    !(registrations[r].event == e && registrations[r].participant == p)
        decreases unseen
      {
        var r :| r in unseen;
        if registrations[r].event == e && registrations[r].participant == p {
          return true;
        }
        unseen := unseen - {r};
      }
      b := false;
    }

    method CreateRegistration(reg: Registration) returns (r: Result<RegistrationId, Store.DbError>)
      requires Valid()
      requires reg.event in events && reg.participant in participants
      modifies this
      ensures Valid()
      ensures (r, State()) == Store.CreateRegistration(old(State()), reg)
    {
      var taken := IsRegistered(reg.event, reg.participant);
      if taken {
        return Failure(Store.IntegrityError);
      }
      r := Success(nextRegistration);
      registrations := registrations[nextRegistration := reg];
      nextRegistration := nextRegistration + 1;
      assert (r, State()) == Store.CreateRegistration(old(State()), reg);
    }

    method CreateBooking(b: Booking) returns (id: BookingId)
      requires Valid()
      modifies this
      ensures Valid()
      ensures (id, State()) == Store.CreateBooking(old(State()), b)
    {
      id := nextBooking;
      bookings := bookings[id := b];
      nextBooking := nextBooking + 1;
    }

    method SaveParticipant(id: ParticipantId, p: Participant) returns (r: Result<(), Store.DbError>)
      requires Valid() && id in participants
      modifies this
      ensures Valid()
      ensures (r, State()) == Store.SaveParticipant(old(State()), id, p)
    {
      if !ParticipantFits(p) {
        return Failure(Store.DataError);
      }
      if exists q :: q in participants && q != id && participants[q].email == p.email {
        return Failure(Store.IntegrityError);
      }
      participants := participants[id := p];
      r := Success(());
    }

    method SaveEvent(id: EventId, e: Event) returns (r: Result<(), Store.DbError>)
      requires Valid() && id in events
      modifies this
      ensures Valid()
      ensures (r, State()) == Store.SaveEvent(old(State()), id, e)
    {
      if !EventFits(e) {
        return Failure(Store.DataError);
      }
      events := events[id := e];
      r := Success(());
    }

    method SaveRegistration(id: RegistrationId, reg: Registration)
      requires Valid() && id in registrations
      requires reg.event == registrations[id].event && reg.participant == registrations[id].participant
      modifies this
      ensures Valid()
      ensures State() == Store.SaveRegistration(old(State()), id, reg)
    {
      registrations := registrations[id := reg];
      assert State() == Store.SaveRegistration(old(State()), id, reg);
    }

    method SaveBooking(id: BookingId, b: Booking)
      requires Valid() && id in bookings
      modifies this
      ensures Valid()
      ensures State() == Store.SaveBooking(old(State()), id, b)
    {
      bookings := bookings[id := b];
    }

    method DeleteEvent(id: EventId)
      requires Valid() && id in events
      modifies this
      ensures Valid()
      ensures State() == Store.DeleteEvent(old(State()), id)
    {
      events := events - {id};
      registrations := map r | r in registrations && registrations[r].event != id :: registrations[r];
      assert State() == Store.DeleteEvent(old(State()), id);
    }

    method DeleteParticipant(id: ParticipantId)
      requires Valid() && id in participants
      modifies this
      ensures Valid()
      ensures State() == Store.DeleteParticipant(old(State()), id)
    {
      participants := participants - {id};
      registrations := map r | r in registrations && registrations[r].participant != id :: registrations[r];
      assert State() == Store.DeleteParticipant(old(State()), id);
    }
  }
}
