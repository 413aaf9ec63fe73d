/**
 * The serializers' in-place updates: `for attr, value in data.items(): setattr(obj, attr, value)`.
 *
 * Validated update data is a dictionary in which every field is optional; a `...Patch`
 * value says which fields it names. `...Items` lists its items, one `...Attr` per named
 * field, and `SetAttrs` runs the loop over them. `Patch...` states the intended result
 * field by field, and the `...ItemsApply` lemmas prove that the loop computes it.
 */
module Fields {
  import opened Wrappers
  import opened Clock
  import opened Models

  // ---------------------------------------------------------------- the setattr loop

  /** The object after `setattr` has been applied for each item in turn. */
  function Apply<T, A>(obj: T, items: seq<A>, setattr: (T, A) -> T): T
  {
    if items == [] then obj
    else Apply(setattr(obj, items[0]), items[1..], setattr)
  }

  /** The loop itself, updating a copy of the object one item at a time. */
  method SetAttrs<T, A>(obj: T, items: seq<A>, setattr: (T, A) -> T) returns (r: T)
    ensures r == Apply(obj, items, setattr)
  {
    r := obj;
    for i := 0 to |items|
      invariant Apply(r, items[i..], setattr) == Apply(obj, items, setattr)
    {
      assert items[i..][1..] == items[i + 1..];
      r := setattr(r, items[i]);
    }
  }

  /** Applying at most one item, giving `obj'`, and then the rest. */
  lemma ApplyFirstThen<T, A>(obj: T, first: seq<A>, rest: seq<A>, setattr: (T, A) -> T, obj': T)
    requires |first| <= 1
    requires obj' == if first == [] then obj else setattr(obj, first[0])
    ensures Apply(obj, first + rest, setattr) == Apply(obj', rest, setattr)
  {
    if first != [] {
      assert (first + rest)[1..] == rest;
    } else {
      assert first + rest == rest;
    }
  }

  // ---------------------------------------------------------------- participants

  datatype ParticipantPatch = ParticipantPatch(name: Option<string>, email: Option<string>)

  datatype ParticipantAttr = PName(name: string) | PEmail(email: string)

  function SetParticipantAttr(p: Participant, a: ParticipantAttr): Participant {
    match a
    case PName(n) => p.(name := n)
    case PEmail(e) => p.(email := e)
  }

  function ParticipantItems(d: ParticipantPatch): seq<ParticipantAttr> {
    (if d.name.Some? then [PName(d.name.value)] else []) + ((if d.email.Some? then [PEmail(d.email.value)] else []) + [])
  }

  /** Each named field takes its new value; every other field keeps its old one. */
  function PatchParticipant(p: Participant, d: ParticipantPatch): Participant {
    Participant(d.name.GetOr(p.name), d.email.GetOr(p.email))
  }

  /** The setattr loop over the participant data computes the field-wise patch. */
  lemma ParticipantItemsApply(p: Participant, d: ParticipantPatch)
    ensures Apply(p, ParticipantItems(d), SetParticipantAttr) == PatchParticipant(p, d)
  {
    var f := SetParticipantAttr;
    var p1 := if d.name.Some? then f(p, PName(d.name.value)) else p;
    ApplyFirstThen(p, (if d.name.Some? then [PName(d.name.value)] else []), (if d.email.Some? then [PEmail(d.email.value)] else []), f, p1);
    var p2 := if d.email.Some? then f(p1, PEmail(d.email.value)) else p1;
    ApplyFirstThen(p1, (if d.email.Some? then [PEmail(d.email.value)] else []), [], f, p2);
  }

  /** `for attr, value in participant_data.items(): setattr(instance.participant, attr, value)` */
  method SetParticipantAttrs(p: Participant, d: ParticipantPatch) returns (q: Participant)
    ensures q == PatchParticipant(p, d)
    ensures d.name.None? ==> q.name == p.name
    ensures d.email.None? ==> q.email == p.email
  {
    q := SetAttrs(p, ParticipantItems(d), SetParticipantAttr);
    ParticipantItemsApply(p, d);
  }

  /** Patching twice with the same data is patching once. */
  lemma PatchParticipantIdempotent(p: Participant, d: ParticipantPatch)
    ensures PatchParticipant(PatchParticipant(p, d), d) == PatchParticipant(p, d)
  {
  }

  // ---------------------------------------------------------------- events

  datatype EventPatch = EventPatch(
    title: Option<string>,
    description: Option<string>,
    image: Option<Option<string>>,
    date: Option<Date>,
    time: Option<TimeOfDay>,
    venue: Option<string>,
    charge: Option<Charge>)

  datatype EventAttr =
    | ETitle(title: string)
    | EDescription(description: string)
    | EImage(image: Option<string>)
    | EDate(date: Date)
    | ETime(time: TimeOfDay)
    | EVenue(venue: string)
    | ECharge(charge: Charge)

  function SetEventAttr(e: Event, a: EventAttr): Event {
    match a
    case ETitle(x) => e.(title := x)
    case EDescription(x) => e.(description := x)
    case EImage(x) => e.(image := x)
    case EDate(x) => e.(date := x)
    case ETime(x) => e.(time := x)
    case EVenue(x) => e.(venue := x)
    case ECharge(x) => e.(charge := x)
  }

  function EventItems(d: EventPatch): seq<EventAttr> {
    (if d.title.Some? then [ETitle(d.title.value)] else [])
      + ((if d.description.Some? then [EDescription(d.description.value)] else [])
      + ((if d.image.Some? then [EImage(d.image.value)] else [])
      + EventScheduleItems(d)))
  }

  /** Each named field takes its new value; every other field keeps its old one. */
  function PatchEvent(e: Event, d: EventPatch): Event {
    Event(d.title.GetOr(e.title), d.description.GetOr(e.description), d.image.GetOr(e.image),
          d.date.GetOr(e.date), d.time.GetOr(e.time), d.venue.GetOr(e.venue), d.charge.GetOr(e.charge))
  }

  /** The items for date, time, venue and charge: the tail of `EventItems`. */
  function EventScheduleItems(d: EventPatch): seq<EventAttr> {
    (if d.date.Some? then [EDate(d.date.value)] else [])
      + ((if d.time.Some? then [ETime(d.time.value)] else [])
      + ((if d.venue.Some? then [EVenue(d.venue.value)] else [])
      + ((if d.charge.Some? then [ECharge(d.charge.value)] else []) + [])))
  }

  lemma EventScheduleItemsApply(e: Event, d: EventPatch)
    ensures Apply(e, EventScheduleItems(d), SetEventAttr)
         == e.(date := d.date.GetOr(e.date), time := d.time.GetOr(e.time),
               venue := d.venue.GetOr(e.venue), charge := d.charge.GetOr(e.charge))
  {
    var i4 := if d.date.Some? then [EDate(d.date.value)] else [];
    var i5 := if d.time.Some? then [ETime(d.time.value)] else [];
    var i6 := if d.venue.Some? then [EVenue(d.venue.value)] else [];
    var i7 := if d.charge.Some? then [ECharge(d.charge.value)] else [];
    var dt, tm, v := d.date.GetOr(e.date), d.time.GetOr(e.time), d.venue.GetOr(e.venue);
    var e4 := Event(e.title, e.description, e.image, dt, e.time, e.venue, e.charge);
    var e5 := Event(e.title, e.description, e.image, dt, tm, e.venue, e.charge);
    var e6 := Event(e.title, e.description, e.image, dt, tm, v, e.charge);
    ApplyFirstThen(e, i4, i5 + (i6 + (i7 + [])), SetEventAttr, e4);
    ApplyFirstThen(e4, i5, i6 + (i7 + []), SetEventAttr, e5);
    ApplyFirstThen(e5, i6, i7 + [], SetEventAttr, e6);
    ApplyFirstThen(e6, i7, [], SetEventAttr, e6.(charge := d.charge.GetOr(e.charge)));
  }

  /** The setattr loop over the event data computes the field-wise patch. */
  lemma EventItemsApply(e: Event, d: EventPatch)
    ensures Apply(e, EventItems(d), SetEventAttr) == PatchEvent(e, d)
  {
    var i1 := if d.title.Some? then [ETitle(d.title.value)] else [];
    var i2 := if d.description.Some? then [EDescription(d.description.value)] else [];
    var i3 := if d.image.Some? then [EImage(d.image.value)] else [];
    var tail := EventScheduleItems(d);
    var t, ds, im := d.title.GetOr(e.title), d.description.GetOr(e.description), d.image.GetOr(e.image);
    var e1 := Event(t, e.description, e.image, e.date, e.time, e.venue, e.charge);
    var e2 := Event(t, ds, e.image, e.date, e.time, e.venue, e.charge);
    var e3 := Event(t, ds, im, e.date, e.time, e.venue, e.charge);
    ApplyFirstThen(e, i1, i2 + (i3 + tail), SetEventAttr, e1);
    ApplyFirstThen(e1, i2, i3 + tail, SetEventAttr, e2);
    ApplyFirstThen(e2, i3, tail, SetEventAttr, e3);
    EventScheduleItemsApply(e3, d);
  }

  /** `for attr, value in event_data.items(): setattr(instance.event, attr, value)` */
  method SetEventAttrs(e: Event, d: EventPatch) returns (r: Event)
    ensures r == PatchEvent(e, d)
  {
    r := SetAttrs(e, EventItems(d), SetEventAttr);
    EventItemsApply(e, d);
  }

  /** A patch whose text fields fit their columns keeps a fitting event fitting. */
  lemma PatchEventFits(e: Event, d: EventPatch)
    requires EventFits(e)
    requires d.title.Some? ==> |d.title.value| <= TitleLength
    requires d.venue.Some? ==> |d.venue.value| <= VenueLength
    ensures EventFits(PatchEvent(e, d))
  {
  }

  // ---------------------------------------------------------------- registrations

  /** The registration's own writable fields; its event and participant are not among them. */
  datatype RegistrationPatch = RegistrationPatch(timestamp: Option<Instant>, status: Option<Status>)

  datatype RegistrationAttr = RTimestamp(timestamp: Instant) | RStatus(status: Status)

  function SetRegistrationAttr(r: Registration, a: RegistrationAttr): Registration {
    match a
    case RTimestamp(x) => r.(timestamp := x)
    case RStatus(x) => r.(status := x)
  }

  function RegistrationItems(d: RegistrationPatch): seq<RegistrationAttr> {
    (if d.timestamp.Some? then [RTimestamp(d.timestamp.value)] else []) + ((if d.status.Some? then [RStatus(d.status.value)] else []) + [])
  }

  function PatchRegistration(r: Registration, d: RegistrationPatch): Registration {
    r.(timestamp := d.timestamp.GetOr(r.timestamp), status := d.status.GetOr(r.status))
  }

  lemma RegistrationItemsApply(r: Registration, d: RegistrationPatch)
    ensures Apply(r, RegistrationItems(d), SetRegistrationAttr) == PatchRegistration(r, d)
  {
    var f := SetRegistrationAttr;
    var r1 := if d.timestamp.Some? then f(r, RTimestamp(d.timestamp.value)) else r;
    ApplyFirstThen(r, (if d.timestamp.Some? then [RTimestamp(d.timestamp.value)] else []), (if d.status.Some? then [RStatus(d.status.value)] else []) + [], f, r1);
    var r2 := if d.status.Some? then f(r1, RStatus(d.status.value)) else r1;
    ApplyFirstThen(r1, (if d.status.Some? then [RStatus(d.status.value)] else []), [], f, r2);
  }

  /** `for attr, value in validated_data.items(): setattr(instance, attr, value)` on a registration. */
  method SetRegistrationAttrs(r: Registration, d: RegistrationPatch) returns (q: Registration)
    ensures q == PatchRegistration(r, d)
    ensures q.event == r.event && q.participant == r.participant
  {
    q := SetAttrs(r, RegistrationItems(d), SetRegistrationAttr);
    RegistrationItemsApply(r, d);
  }

  // ---------------------------------------------------------------- bookings

  datatype BookingPatch = BookingPatch(timestamp: Option<Instant>, status: Option<string>)

  datatype BookingAttr = BTimestamp(timestamp: Instant) | BStatus(status: string)

  function SetBookingAttr(b: Booking, a: BookingAttr): Booking {
    match a
    case BTimestamp(x) => b.(timestamp := x)
    case BStatus(x) => b.(status := x)
  }

  function BookingItems(d: BookingPatch): seq<BookingAttr> {
    (if d.timestamp.Some? then [BTimestamp(d.timestamp.value)] else []) + ((if d.status.Some? then [BStatus(d.status.value)] else []) + [])
  }

  function PatchBooking(b: Booking, d: BookingPatch): Booking {
    b.(timestamp := d.timestamp.GetOr(b.timestamp), status := d.status.GetOr(b.status))
  }

  lemma BookingItemsApply(b: Booking, d: BookingPatch)
    ensures Apply(b, BookingItems(d), SetBookingAttr) == PatchBooking(b, d)
  {
    var f := SetBookingAttr;
    var b1 := if d.timestamp.Some? then f(b, BTimestamp(d.timestamp.value)) else b;
    ApplyFirstThen(b, (if d.timestamp.Some? then [BTimestamp(d.timestamp.value)] else []), (if d.status.Some? then [BStatus(d.status.value)] else []) + [], f, b1);
    var b2 := if d.status.Some? then f(b1, BStatus(d.status.value)) else b1;
    ApplyFirstThen(b1, (if d.status.Some? then [BStatus(d.status.value)] else []), [], f, b2);
  }

  /** `for attr, value in validated_data.items(): setattr(instance, attr, value)` on a booking. */
  method SetBookingAttrs(b: Booking, d: BookingPatch) returns (q: Booking)
    ensures q == PatchBooking(b, d)
    ensures q.event == b.event && q.participant == b.participant
  {
    q := SetAttrs(b, BookingItems(d), SetBookingAttr);
    BookingItemsApply(b, d);
  }
}
