/**
 * The database behind the views: the tables as one value, the constraints the schema
 * declares, and the single-statement ORM operations the views and serializers issue
 * (`get_or_create`, `create`, `save`, `delete`), each with the database's own errors.
 */
module Store {
  import opened Wrappers
  import opened Clock
  import opened Models

  /** What the database raises. */
  datatype DbError =
    | IntegrityError  // a unique constraint would be violated
    | DataError       // a value does not fit its varchar column

  /** All tables, with the next value of each table's id sequence. */
  datatype Tables = Tables(
    events: map<EventId, Event>,
    participants: map<ParticipantId, Participant>,
    registrations: map<RegistrationId, Registration>,
    bookings: map<BookingId, Booking>,
    nextEvent: nat,
    nextParticipant: nat,
    nextRegistration: nat,
    nextBooking: nat)

  /** A fresh database: empty tables, sequences starting at 1. */
  function Empty(): Tables {
    Tables(map[], map[], map[], map[], 1, 1, 1, 1)
  }

  // ---------------------------------------------------------------- constraints

  /** `email = EmailField(unique=True)`: no two participants share an email. */
  predicate EmailsUnique(ps: map<ParticipantId, Participant>) {
    forall p, q :: p in ps && q in ps && ps[p].email == ps[q].email ==> p == q
  }

  /** `unique_together = ('event', 'participant')`. */
  predicate PairsUnique(rs: map<RegistrationId, Registration>) {
    forall a, b ::
      a in rs && b in rs && rs[a].event == rs[b].event && rs[a].participant == rs[b].participant ==> a == b
  }

  /** Both foreign keys of every registration name an existing row. */
  predicate ForeignKeysHold(t: Tables) {
    forall r :: r in t.registrations ==>
      t.registrations[r].event in t.events && t.registrations[r].participant in t.participants
  }

  /**
   * Every id in use was issued by its sequence, so the next one is fresh; sequences
   * start at 1, so no row has id 0.
   */
  predicate IdsIssued(t: Tables) {
    && 0 < t.nextEvent && 0 < t.nextParticipant && 0 < t.nextRegistration && 0 < t.nextBooking
    && (forall k :: k in t.events ==> 0 < k < t.nextEvent)
    && (forall k :: k in t.participants ==> 0 < k < t.nextParticipant)
    && (forall k :: k in t.registrations ==> 0 < k < t.nextRegistration)
    && (forall k :: k in t.bookings ==> 0 < k < t.nextBooking)
  }

  /** Every stored text fits its column. */
  predicate RowsFit(t: Tables) {
    && (forall k :: k in t.events ==> EventFits(t.events[k]))
    && (forall k :: k in t.participants ==> ParticipantFits(t.participants[k]))
  }

  /**
   * The schema's constraints. Under them every sequence's next value is unused, and no
   * event or participant has the falsy id 0.
   */
  predicate Valid(t: Tables)
    ensures Valid(t) ==>
              && t.nextEvent !in t.events && t.nextParticipant !in t.participants
              && t.nextRegistration !in t.registrations && t.nextBooking !in t.bookings
              && 0 !in t.events && 0 !in t.participants
  {
    EmailsUnique(t.participants) && PairsUnique(t.registrations) && ForeignKeysHold(t) && IdsIssued(t) && RowsFit(t)
  }

  lemma EmptyValid()
    ensures Valid(Empty())
  {
  }

  // ---------------------------------------------------------------- lookups

  /** Some participant already has this email. */
  predicate EmailTaken(ps: map<ParticipantId, Participant>, email: string) {
    exists q :: q in ps && ps[q].email == email
  }

  /** `Participant.objects.get(email=email)`, or None for DoesNotExist. */
  ghost function OwnerOf(ps: map<ParticipantId, Participant>, email: string): (r: Option<ParticipantId>)
    requires EmailsUnique(ps)
    ensures r.Some? <==> EmailTaken(ps, email)
    ensures r.Some? ==> r.value in ps && ps[r.value].email == email
    ensures r.Some? ==> forall q :: q in ps && ps[q].email == email ==> q == r.value
  {
    if EmailTaken(ps, email) then Some(var q :| q in ps && ps[q].email == email; q) else None
  }

  /** `Participant.objects.get(name=..., email=...)`: a participant equal to `p` in every field. */
  ghost function MatchOf(ps: map<ParticipantId, Participant>, p: Participant): (r: Option<ParticipantId>)
    requires EmailsUnique(ps)
    ensures r.Some? <==> p in ps.Values
    ensures r.Some? ==> r.value in ps && ps[r.value] == p
  {
    match OwnerOf(ps, p.email)
    case Some(q) => if ps[q] == p then Some(q) else None
    case None => None
  }

  /** `Registration.objects.filter(event=e, participant=p).exists()` */
  predicate Registered(rs: map<RegistrationId, Registration>, e: EventId, p: ParticipantId)
    ensures Registered(rs, e, p) <==> (e, p) in (set r | r in rs :: (rs[r].event, rs[r].participant))
  {
    exists r :: r in rs && rs[r].event == e && rs[r].participant == p
  }

  /**
   * `Registration.objects.filter(event_id=e).values_list('participant', flat=True)`: the
   * participant ids the event's registrations point at.
   */
  function RegisteredIds(rs: map<RegistrationId, Registration>, e: EventId): (ids: set<ParticipantId>)
    ensures forall p :: p in ids <==> Registered(rs, e, p)
  {
    set r | r in rs && rs[r].event == e :: rs[r].participant
  }

  /**
   * The participants of an event, `Participant.objects.filter(id__in=...)` over the ids
   * its registrations name: every participant registered for it, each once. When the
   * foreign keys hold, the `id__in` filter drops no id.
   */
  function ParticipantsOf(t: Tables, e: EventId): (ps: set<ParticipantId>)
    ensures ps <= t.participants.Keys
    ensures forall p :: p in ps <==> p in t.participants && Registered(t.registrations, e, p)
    ensures ForeignKeysHold(t) ==> ps == RegisteredIds(t.registrations, e)
  {
    var ids := RegisteredIds(t.registrations, e);
    set p | p in t.participants && p in ids
  }

  // ---------------------------------------------------------------- inserts

  /** `Event.objects.create(...)`: a new event row, unless its text overflows a column. */
  function AddEvent(t: Tables, e: Event): (out: (Result<EventId, DbError>, Tables))
    requires Valid(t)
    ensures Valid(out.1)
    ensures out.0.Success? <==> EventFits(e)
    ensures out.0.Failure? ==> out.1 == t
    ensures out.0.Success? ==>
              && out.0.value !in t.events
              && out.1 == t.(events := t.events[out.0.value := e], nextEvent := out.1.nextEvent)
  {
    if !EventFits(e) then (Failure(DataError), t)
    else (Success(t.nextEvent), t.(events := t.events[t.nextEvent := e], nextEvent := t.nextEvent + 1))
  }

  /** `Participant.objects.create(...)`: fails on an overlong field or an email already in use. */
  function CreateParticipant(t: Tables, p: Participant): (out: (Result<ParticipantId, DbError>, Tables))
    requires Valid(t)
    ensures Valid(out.1)
    ensures out.0.Success? <==> ParticipantFits(p) && !EmailTaken(t.participants, p.email)
    ensures out.0.Failure? ==> out.1 == t
    ensures out.0.Success? ==>
              && out.0.value !in t.participants
              && out.1 == t.(participants := t.participants[out.0.value := p], nextParticipant := out.1.nextParticipant)
  {
    if !ParticipantFits(p) then (Failure(DataError), t)
    else if EmailTaken(t.participants, p.email) then (Failure(IntegrityError), t)
    else
      var id := t.nextParticipant;
      (Success(id), t.(participants := t.participants[id := p], nextParticipant := id + 1))
  }

  /**
   * `Participant.objects.get_or_create(email=email, defaults=defaults)`: the participant
   * with that email, unchanged, or else a new one built from `defaults` (whose own email
   * wins over the lookup value). The flag says whether a row was created.
   */
  ghost function GetOrCreateByEmail(t: Tables, email: string, defaults: Participant)
    : (out: (Result<(ParticipantId, bool), DbError>, Tables))
    requires Valid(t)
    ensures Valid(out.1)
    ensures EmailTaken(t.participants, email) ==> out == (Success((OwnerOf(t.participants, email).value, false)), t)
    ensures !EmailTaken(t.participants, email) ==>
      match CreateParticipant(t, defaults)
      case (Success(id), t') => out == (Success((id, true)), t')
      case (Failure(err), t') => out == (Failure(err), t)
  {
    match OwnerOf(t.participants, email)
    case Some(id) => (Success((id, false)), t)
    case None =>
      match CreateParticipant(t, defaults)
      case (Success(id), t') => (Success((id, true)), t')
      case (Failure(err), t') => (Failure(err), t')
  }

  /**
   * `Participant.objects.get_or_create(**fields)`: a participant equal to `p` in every
   * field, or else a new row; a participant with the same email but another name makes
   * the insert collide with the unique email.
   */
  ghost function GetOrCreateExact(t: Tables, p: Participant): (out: (Result<(ParticipantId, bool), DbError>, Tables))
    requires Valid(t)
    ensures Valid(out.1)
    ensures p in t.participants.Values ==> out == (Success((MatchOf(t.participants, p).value, false)), t)
    ensures p !in t.participants.Values && EmailTaken(t.participants, p.email) && ParticipantFits(p) ==>
              out == (Failure(IntegrityError), t)
    ensures p !in t.participants.Values && !EmailTaken(t.participants, p.email) && ParticipantFits(p) ==>
              && out.0 == Success((t.nextParticipant, true))
              && out.1 == t.(participants := t.participants[t.nextParticipant := p], nextParticipant := t.nextParticipant + 1)
    ensures p !in t.participants.Values && !ParticipantFits(p) ==> out == (Failure(DataError), t)
    ensures out.0.Success? ==> (out.0.value.1 <==> p !in t.participants.Values)
    ensures out.0.Success? ==> var id := out.0.value.0; id in out.1.participants && out.1.participants[id] == p
  {
    match MatchOf(t.participants, p)
    case Some(id) => (Success((id, false)), t)
    case None =>
      match CreateParticipant(t, p)
      case (Success(id), t') => (Success((id, true)), t')
      case (Failure(err), t') => (Failure(err), t')
  }

  /** `Registration.objects.create(...)`: a second row for the same pair breaks `unique_together`. */
  function CreateRegistration(t: Tables, reg: Registration): (out: (Result<RegistrationId, DbError>, Tables))
    requires Valid(t)
    requires reg.event in t.events && reg.participant in t.participants
    ensures Valid(out.1)
    ensures out.0.Failure? <==> Registered(t.registrations, reg.event, reg.participant)
    ensures out.0.Failure? ==> out.0.error == IntegrityError && out.1 == t
    ensures out.0.Success? ==>
              && out.0.value !in t.registrations
              && out.1 == t.(registrations := t.registrations[out.0.value := reg], nextRegistration := out.1.nextRegistration)
  {
    if Registered(t.registrations, reg.event, reg.participant) then (Failure(IntegrityError), t)
    else
      var id := t.nextRegistration;
      (Success(id), t.(registrations := t.registrations[id := reg], nextRegistration := id + 1))
  }

  /** `Booking.objects.create(...)`: the booking table declares no unique constraint here. */
  function CreateBooking(t: Tables, b: Booking): (out: (BookingId, Tables))
    requires Valid(t)
    ensures Valid(out.1)
    ensures out.0 !in t.bookings
    ensures out.1 == t.(bookings := t.bookings[out.0 := b], nextBooking := out.1.nextBooking)
  {
    (t.nextBooking, t.(bookings := t.bookings[t.nextBooking := b], nextBooking := t.nextBooking + 1))
  }

  // ---------------------------------------------------------------- saves

  /** `participant.save()` after its fields were set: the new email must not belong to another row. */
  function SaveParticipant(t: Tables, id: ParticipantId, p: Participant): (out: (Result<(), DbError>, Tables))
    requires Valid(t) && id in t.participants
    ensures Valid(out.1)
    ensures out.0.Success? <==>
      ParticipantFits(p) && forall q :: q in t.participants && q != id ==> t.participants[q].email != p.email
    ensures out.0.Failure? ==> out.1 == t
    ensures out.0.Success? ==> out.1 == t.(participants := t.participants[id := p])
  {
    if !ParticipantFits(p) then (Failure(DataError), t)
    else if exists q :: q in t.participants && q != id && t.participants[q].email == p.email then
      (Failure(IntegrityError), t)
    else (Success(()), t.(participants := t.participants[id := p]))
  }

  /** `event.save()` after its fields were set. */
  function SaveEvent(t: Tables, id: EventId, e: Event): (out: (Result<(), DbError>, Tables))
    requires Valid(t) && id in t.events
    ensures Valid(out.1)
    ensures out.0.Success? <==> EventFits(e)
    ensures out.0.Failure? ==> out.1 == t
    ensures out.0.Success? ==> out.1 == t.(events := t.events[id := e])
  {
    if !EventFits(e) then (Failure(DataError), t)
    else (Success(()), t.(events := t.events[id := e]))
  }

  /** `registration.save()` after its own fields were set; its event and participant stay. */
  function SaveRegistration(t: Tables, id: RegistrationId, reg: Registration): (t': Tables)
    requires Valid(t) && id in t.registrations
    requires reg.event == t.registrations[id].event && reg.participant == t.registrations[id].participant
    ensures Valid(t')
    ensures t' == t.(registrations := t.registrations[id := reg])
  {
    t.(registrations := t.registrations[id := reg])
  }

  /** `booking.save()` after its own fields were set. */
  function SaveBooking(t: Tables, id: BookingId, b: Booking): (t': Tables)
    requires Valid(t) && id in t.bookings
    ensures Valid(t')
    ensures t' == t.(bookings := t.bookings[id := b])
  {
    t.(bookings := t.bookings[id := b])
  }

  // ---------------------------------------------------------------- deletes

  /** `event.delete()`: the event goes, and `on_delete=CASCADE` takes its registrations. */
  function DeleteEvent(t: Tables, id: EventId): (t': Tables)
    requires Valid(t) && id in t.events
    ensures Valid(t')
    ensures t'.events == t.events - {id}
    ensures forall r :: r in t'.registrations <==> r in t.registrations && t.registrations[r].event != id
    ensures forall r :: r in t'.registrations ==> t'.registrations[r] == t.registrations[r]
    ensures t'.participants == t.participants && t'.bookings == t.bookings
  {
    t.(events := t.events - {id},
       registrations := map r | r in t.registrations && t.registrations[r].event != id :: t.registrations[r])
  }

  /** `participant.delete()`: the participant goes, and `on_delete=CASCADE` takes its registrations. */
  function DeleteParticipant(t: Tables, id: ParticipantId): (t': Tables)
    requires Valid(t) && id in t.participants
    ensures Valid(t')
    ensures t'.participants == t.participants - {id}
    ensures forall r :: r in t'.registrations <==> r in t.registrations && t.registrations[r].participant != id
    ensures forall r :: r in t'.registrations ==> t'.registrations[r] == t.registrations[r]
    ensures t'.events == t.events && t'.bookings == t.bookings
  {
    t.(participants := t.participants - {id},
       registrations := map r | r in t.registrations && t.registrations[r].participant != id :: t.registrations[r])
  }

  // ---------------------------------------------------------------- properties

  /** Looking a participant up by email twice gives the same row, and the second call writes nothing. */
  lemma GetOrCreateByEmailIdempotent(t: Tables, p: Participant)
    requires Valid(t)
    requires GetOrCreateByEmail(t, p.email, p).0.Success?
    ensures var (first, t1) := GetOrCreateByEmail(t, p.email, p);
            GetOrCreateByEmail(t1, p.email, p) == (Success((first.value.0, false)), t1)
  {
    var (first, t1) := GetOrCreateByEmail(t, p.email, p);
    var id := first.value.0;
    assert id in t1.participants && t1.participants[id].email == p.email;
    assert EmailTaken(t1.participants, p.email);
  }

  /** After an event is deleted no registration refers to it, so it has no participants. */
  lemma DeleteEventLeavesNoParticipants(t: Tables, id: EventId)
    requires Valid(t) && id in t.events
    ensures forall r :: r in DeleteEvent(t, id).registrations ==> DeleteEvent(t, id).registrations[r].event != id
    ensures ParticipantsOf(DeleteEvent(t, id), id) == {}
  {
  }

  /** After a participant is deleted it is listed for no event. */
  lemma DeleteParticipantUnlists(t: Tables, id: ParticipantId, e: EventId)
    requires Valid(t) && id in t.participants
    ensures forall r :: r in DeleteParticipant(t, id).registrations ==> DeleteParticipant(t, id).registrations[r].participant != id
    ensures id !in ParticipantsOf(DeleteParticipant(t, id), e)
  {
  }
}
