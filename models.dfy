/**
 * The three tables of the event store as values: events, participants and
 * registrations, their choice fields and defaults, the column lengths the database
 * enforces, and the orderings their listings use. Bookings are kept as opaque rows.
 */
module Models {
  import opened Wrappers
  import opened Clock

  type EventId = nat
  type ParticipantId = nat
  type RegistrationId = nat
  type BookingId = nat

  // ---------------------------------------------------------------- choice fields

  /** `Event.charge`: one of the two CHARGE_CHOICES. */
  datatype Charge = Free | Pay

  const DefaultCharge: Charge := Free

  /** The value stored in the `charge` column. */
  function ChargeCode(c: Charge): (s: string)
    ensures 0 < |s| <= 4
  {
    match c
    case Free => "free"
    case Pay => "pay"
  }

  /** `Registration.status`: one of the three STATUS_CHOICES. */
  datatype Status = Confirmed | Pending | Cancelled

  const DefaultStatus: Status := Pending

  /** The value stored in the `status` column. */
  function StatusCode(st: Status): (s: string)
    ensures 0 < |s| <= 10
  {
    match st
    case Confirmed => "confirmed"
    case Pending => "pending"
    case Cancelled => "cancelled"
  }

  // ---------------------------------------------------------------- rows

  /** A row of the Events table; `image` is the stored file reference, if any. */
  datatype Event = Event(
    title: string,
    description: string,
    image: Option<string>,
    date: Date,
    time: TimeOfDay,
    venue: string,
    charge: Charge)
  {
    /** The naive start, `datetime.combine(date, time)`. */
    function Start(): DateTime {
      DateTime(date, time)
    }
  }

  /** A row of the Participants table. */
  datatype Participant = Participant(name: string, email: string)

  /** A row of the Registrations table. */
  datatype Registration = Registration(
    event: EventId,
    participant: ParticipantId,
    timestamp: Instant,
    status: Status)

  /**
   * A row of the Bookings table. Its model class is not part of this model; the
   * serializer shows an event, a participant, a timestamp and a status whose choices
   * are unknown, so the status is kept as the stored text.
   */
  datatype Booking = Booking(
    event: EventId,
    participant: ParticipantId,
    timestamp: Instant,
    status: string)

  // ---------------------------------------------------------------- column lengths

  const TitleLength: nat := 100
  const VenueLength: nat := 255
  const NameLength: nat := 100
  /** Django's default `max_length` for an EmailField. */
  const EmailLength: nat := 254

  /** The database accepts the event row: `title` and `venue` fit their varchar columns. */
  predicate EventFits(e: Event) {
    |e.title| <= TitleLength && |e.venue| <= VenueLength
  }

  /** The database accepts the participant row: `name` and `email` fit their varchar columns. */
  predicate ParticipantFits(p: Participant) {
    |p.name| <= NameLength && |p.email| <= EmailLength
  }

  // ---------------------------------------------------------------- orderings

  /** Code-point lexicographic order on strings, with a proper prefix first. */
  predicate StrLe(a: string, b: string) {
    if a == [] then true
    else if b == [] then false
    else if a[0] < b[0] then true
    else if b[0] < a[0] then false
    else StrLe(a[1..], b[1..])
  }

  lemma {:induction false} StrLeTotal(a: string, b: string)
    ensures StrLe(a, b) || StrLe(b, a)
  {
    if a != [] && b != [] && a[0] == b[0] {
      StrLeTotal(a[1..], b[1..]);
    }
  }

  lemma {:induction false} StrLeTransitive(a: string, b: string, c: string)
    requires StrLe(a, b) && StrLe(b, c)
    ensures StrLe(a, c)
  {
    if a != [] && b != [] && c != [] && a[0] == b[0] == c[0] {
      StrLeTransitive(a[1..], b[1..], c[1..]);
    }
  }

  lemma {:induction false} StrLeAntisymmetric(a: string, b: string)
    requires StrLe(a, b) && StrLe(b, a)
    ensures a == b
  {
    if a != [] && b != [] {
      StrLeAntisymmetric(a[1..], b[1..]);
      assert a == [a[0]] + a[1..] && b == [b[0]] + b[1..];
    }
  }

  /** `Event.Meta.ordering = ['date', 'time']`: `a` is listed no later than `b`. */
  predicate EventListedBefore(a: Event, b: Event) {
    !Before(b.Start(), a.Start())
  }

  /** `Participant.Meta.ordering = ['name']`. */
  predicate ParticipantListedBefore(a: Participant, b: Participant) {
    StrLe(a.name, b.name)
  }

  /** Event order is a total preorder that ties exactly the events starting together. */
  lemma EventOrderIsTotalPreorder(a: Event, b: Event, c: Event)
    ensures EventListedBefore(a, b) || EventListedBefore(b, a)
    ensures EventListedBefore(a, b) && EventListedBefore(b, c) ==> EventListedBefore(a, c)
    ensures EventListedBefore(a, b) && EventListedBefore(b, a) <==> a.Start() == b.Start()
  {
  }

  /** Participant order is a total preorder that ties exactly the participants with equal names. */
  lemma ParticipantOrderIsTotalPreorder(a: Participant, b: Participant, c: Participant)
    ensures ParticipantListedBefore(a, b) || ParticipantListedBefore(b, a)
    ensures ParticipantListedBefore(a, b) && ParticipantListedBefore(b, c) ==> ParticipantListedBefore(a, c)
    ensures ParticipantListedBefore(a, b) && ParticipantListedBefore(b, a) <==> a.name == b.name
  {
    StrLeTotal(a.name, b.name);
    if ParticipantListedBefore(a, b) && ParticipantListedBefore(b, c) {
      StrLeTransitive(a.name, b.name, c.name);
    }
    if ParticipantListedBefore(a, b) && ParticipantListedBefore(b, a) {
      StrLeAntisymmetric(a.name, b.name);
    }
    if a.name == b.name {
      StrLeTotal(a.name, a.name);
    }
  }
}
