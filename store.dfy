/**
 * The module-level `appointments` array and the three request paths that
 * touch it: the sweep, the `/ghl-webhook` handler and `/api/appointments`.
 */
module Store {
  import opened Wrappers
  import opened Duration
  import opened FieldResolver
  import opened Appointments
  import opened Reconciliation
  import opened View

  class AppointmentStore {
    /** How timestamps are read and written; fixed for the life of the store. */
    const codec: TimeCodec
    var appointments: seq<Appointment>

    /** At most one record per id. */
    ghost predicate Valid()
      reads this
    {
      UniqueIds(appointments)
    }

    /** The process starts with `let appointments = []`. */
    constructor (codec: TimeCodec)
      ensures Valid() && appointments == []
    {
      this.codec := codec;
      appointments := [];
    }

    /** `cleanupOldAppointments`: drop every record whose end has passed or does not parse. */
    method Cleanup(now: int)
      requires Valid()
      modifies this
      ensures Valid()
      ensures appointments == Sweep(codec.parse, old(appointments), now)
    {
      SweepKeepsUniqueIds(codec.parse, appointments, now);
      appointments := Sweep(codec.parse, appointments, now);
    }

    /** The body of the `/ghl-webhook` handler. */
    method HandleWebhook(p: Payload, now: int) returns (reply: Reply)
      requires Valid()
      modifies this
      ensures Valid()
      ensures Outcome(reply, appointments) == Ingest(codec, old(appointments), p, now)
    {
      Cleanup(now);
      var resolved := Resolve(p);
      if resolved.None? {
        return MissingId;
      }
      reply := ApplyEvent(resolved.value, now);
    }

    /** The handler from `findIndex` on: cancel in place, append a placeholder, or upsert. */
    method ApplyEvent(r: Resolved, now: int) returns (reply: Reply)
      requires Valid()
      modifies this
      ensures Valid()
      ensures Outcome(reply, appointments) == Reconcile(codec, old(appointments), r, now)
    {
      ReconcileKeepsUniqueIds(codec, appointments, r, now);
      var index := FindIndex(appointments, r.id);

      if r.cancelled && index >= 0 {
        appointments := appointments[index := appointments[index].(status := Cancelled)];
        return CancelAccepted;
      }

      var window := Window(codec, r.startTime, r.endTime, now);
      if window.None? {
        return InternalError;
      }
      var (startTime, endTime) := window.value;
      var duration := DurationMinutes(codec.parse, startTime, endTime);

      if r.cancelled {
        var dummy := Appointment(r.id, r.clientName, r.coachName, startTime, endTime, duration, Cancelled);
        appointments := appointments + [dummy];
        return CancelAccepted;
      }

      var newAppt := Appointment(r.id, r.clientName, r.coachName, startTime, endTime, duration, Active);
      if index >= 0 {
        appointments := appointments[index := newAppt];
      } else {
        appointments := appointments + [newAppt];
      }
      return Accepted;
    }

    /** The `/api/appointments` handler: sweep, then the records not yet ended, by start time. */
    method GetAppointments(now: int) returns (upcoming: seq<Appointment>)
      requires Valid()
      modifies this
      ensures Valid()
      ensures appointments == Sweep(codec.parse, old(appointments), now)
      ensures upcoming == Upcoming(codec.parse, appointments, now)
      ensures forall a :: a in upcoming ==> Live(codec.parse, a, now)
      ensures UniqueIds(upcoming)
    {
      Cleanup(now);
      upcoming := Upcoming(codec.parse, appointments, now);
      UpcomingSpec(codec.parse, appointments, now);
      UpcomingUniqueIds(codec.parse, appointments, now);
    }
  }
}
