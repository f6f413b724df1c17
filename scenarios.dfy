/**
 * End-to-end runs of the engine: webhook calls followed by a query of
 * `/api/appointments`, starting from the empty store of a fresh process.
 */
module Scenarios {
  import opened Wrappers
  import opened JsText
  import opened Duration
  import opened FieldResolver
  import opened Appointments
  import opened Reconciliation
  import opened View

  const NoCustomData := CustomData(None, None, None, None, None, None)
  const NoCalendar := CalendarBlock(None, None, None)
  const NoUser := UserBlock(None)

  /** A booking event: id in custom data, times in the calendar block. */
  function Booking(id: string, start: string, end: string): Payload {
    Payload(NoCustomData.(appointmentId := Some(id)),
            NoCalendar.(startTime := Some(start), endTime := Some(end)),
            NoUser, None, None, None, None, None, None)
  }

  /** A cancellation event that carries the id and `isCancelled = "true"` only. */
  function Cancellation(id: string): Payload {
    Payload(NoCustomData.(appointmentId := Some(id), isCancelled := Some("true")),
            NoCalendar, NoUser, None, None, None, None, None, None)
  }

  lemma CancellationIsCancel(id: string)
    ensures CancelFlag(Cancellation(id).customData.isCancelled)
  {
    var w := "true";
    assert Lower(w) == w by {
      assert forall i :: 0 <= i < |w| ==> LowerChar(w[i]) == w[i];
    }
    assert !IsSpace(w[0]) && !IsSpace(w[|w| - 1]);
    TrimSurrounded("", w, "");
    assert "" + w + "" == w;
  }

  /** A 30-minute booking that has not ended shows as the one active record, 30 minutes long. */
  lemma BookingThenQuery(codec: TimeCodec, start: string, end: string, t: int, now: int, later: int)
    requires start != "" && end != ""
    requires codec.parse(start) == Some(t) && codec.parse(end) == Some(t + HalfHourMs)
    requires now <= later <= t + HalfHourMs
    ensures var view := Upcoming(codec.parse, Ingest(codec, [], Booking("a1", start, end), now).store, later);
      |view| == 1 && view[0].id == "a1" && view[0].status == Active &&
      view[0].durationMinutes == Some(30)
  {
    var p := Booking("a1", start, end);
    FirstTruthyAt(IdChain(p), 0);
    FirstTruthyAt(StartChain(p), 0);
    FirstTruthyAt(EndChain(p), 0);
    DurationWholeMinutes(codec.parse, start, end, 30);
    var store := Ingest(codec, [], p, now).store;
    assert store == [NewRecord(codec, Resolve(p).value, (start, end), Active)];
    SweepSingleton(codec.parse, store[0], later);
  }

  /** A cancellation for an id never seen shows as one cancelled record over the next half hour. */
  lemma UnseenCancellationThenQuery(codec: TimeCodec, now: int)
    requires RoundTrips(codec)
    ensures var view := Upcoming(codec.parse, Ingest(codec, [], Cancellation("b1"), now).store, now);
      |view| == 1 && view[0].id == "b1" && view[0].status == Cancelled &&
      codec.parse(view[0].startTime) == Some(now) &&
      codec.parse(view[0].endTime) == Some(now + HalfHourMs)
  {
    var p := Cancellation("b1");
    CancellationIsCancel("b1");
    FirstTruthyAt(IdChain(p), 0);
    var r := Resolve(p).value;
    CancelPlaceholderWindow(codec, [], r, now);
    var store := Ingest(codec, [], p, now).store;
    assert |store| == 1;
    assert store == [store[0]];
    SweepSingleton(codec.parse, store[0], now);
  }

  /** A booking that ended an hour ago is stored and then swept: the view is empty. */
  lemma PastBookingThenQuery(codec: TimeCodec, start: string, end: string, now: int)
    requires start != "" && end != ""
    requires codec.parse(end) == Some(now - 60 * MinuteMs)
    ensures Upcoming(codec.parse, Ingest(codec, [], Booking("a2", start, end), now).store, now) == []
  {
    var p := Booking("a2", start, end);
    FirstTruthyAt(IdChain(p), 0);
    FirstTruthyAt(StartChain(p), 0);
    FirstTruthyAt(EndChain(p), 0);
    var store := Ingest(codec, [], p, now).store;
    assert store == [NewRecord(codec, Resolve(p).value, (start, end), Active)];
    SweepSingleton(codec.parse, store[0], now);
  }

  /** Booking and then cancelling the same id leaves one record, cancelled, with the booked times. */
  lemma BookingThenCancellation(codec: TimeCodec, start: string, end: string, t: int,
                                bookedAt: int, cancelledAt: int)
    requires start != "" && end != ""
    requires codec.parse(start) == Some(t) && codec.parse(end) == Some(t + HalfHourMs)
    requires cancelledAt <= t + HalfHourMs
    ensures var booked := Ingest(codec, [], Booking("a1", start, end), bookedAt).store;
      var after := Ingest(codec, booked, Cancellation("a1"), cancelledAt).store;
      |after| == 1 && after[0].id == "a1" && after[0].status == Cancelled &&
      after[0].startTime == start && after[0].endTime == end
  {
    var p := Booking("a1", start, end);
    FirstTruthyAt(IdChain(p), 0);
    FirstTruthyAt(StartChain(p), 0);
    FirstTruthyAt(EndChain(p), 0);
    var booked := Ingest(codec, [], p, bookedAt).store;
    assert booked == [NewRecord(codec, Resolve(p).value, (start, end), Active)];
    SweepSingleton(codec.parse, booked[0], cancelledAt);
    var q := Cancellation("a1");
    CancellationIsCancel("a1");
    FirstTruthyAt(IdChain(q), 0);
    var r := Resolve(q).value;
    assert r.id == "a1" && r.cancelled;
    assert Sweep(codec.parse, booked, cancelledAt) == booked;
    assert booked[0].id == "a1";
    CancelKnownId(codec, booked, r, cancelledAt);
    assert Ingest(codec, booked, q, cancelledAt) == Reconcile(codec, booked, r, cancelledAt);
  }
}
