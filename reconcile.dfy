/**
 * The reconciliation policy of the `/ghl-webhook` handler, as a function from
 * the store before the event to the reply and the store after it.
 */
module Reconciliation {
  import opened Wrappers
  import opened Duration
  import opened FieldResolver
  import opened Appointments

  /**
   * The handler's responses: `{success:false}` for a missing id,
   * `{success:true, cancelled:true}`, `{success:true}`, and the 500 reply of
   * the `catch` block, reached when `toISOString` throws on an invalid date.
   */
  datatype Reply = MissingId | CancelAccepted | Accepted | InternalError

  datatype Outcome = Outcome(reply: Reply, store: seq<Appointment>)

  /**
   * The start and end a new record gets: the resolved values, else `now`
   * and start + 30 minutes. `None` when the start does not parse and no end
   * was given, where `new Date(NaN).toISOString()` throws.
   */
  function Window(codec: TimeCodec, start: Field, end: Field, now: int): (w: Option<(string, string)>)
    ensures w.None? <==>
      end.None? && codec.parse(if start.Some? then start.value else codec.format(now)).None?
    ensures w.Some? && start.Some? ==> w.value.0 == start.value
    ensures w.Some? && end.Some? ==> w.value.1 == end.value
  {
    var s := if start.Some? then start.value else codec.format(now);
    if end.Some? then Some((s, end.value))
    else
      match codec.parse(s)
      case None => None
      case Some(t) => Some((s, codec.format(t + HalfHourMs)))
  }

  /** Missing times are synthesised as `now` and start + 30 minutes. */
  lemma WindowDefaults(codec: TimeCodec, start: Field, end: Field, now: int)
    requires RoundTrips(codec)
    ensures start.None? ==> Window(codec, start, end, now).Some?
    ensures start.None? && Window(codec, start, end, now).Some? ==>
      codec.parse(Window(codec, start, end, now).value.0) == Some(now)
    ensures end.None? && Window(codec, start, end, now).Some? ==>
      var w := Window(codec, start, end, now).value;
      codec.parse(w.0).Some? && codec.parse(w.1) == Some(codec.parse(w.0).value + HalfHourMs)
  {
  }

  /** The record an event creates or rewrites, with its duration recomputed. */
  function NewRecord(codec: TimeCodec, r: Resolved, w: (string, string), status: Status): (a: Appointment)
    ensures a.id == r.id && a.status == status
    ensures a.startTime == w.0 && a.endTime == w.1
    ensures a.clientName == r.clientName && a.coachName == r.coachName
  {
    Appointment(r.id, r.clientName, r.coachName, w.0, w.1,
                DurationMinutes(codec.parse, w.0, w.1), status)
  }

  /**
   * A cancellation flips the status of a known record in place or appends a
   * cancelled placeholder; any other event replaces the known record or
   * appends a new one, active.
   */
  function Reconcile(codec: TimeCodec, s: seq<Appointment>, r: Resolved, now: int): (o: Outcome)
    ensures o.reply != MissingId
    ensures o.reply == InternalError ==> o.store == s
    ensures o.reply == CancelAccepted <==> r.cancelled && o.reply != InternalError
    ensures |o.store| == |s| || (|o.store| == |s| + 1 && !HasId(s, r.id))
    ensures o.reply != InternalError ==> HasId(o.store, r.id)
  {
    var index := IndexOf(s, r.id);
    if r.cancelled && index >= 0 then
      var t := s[index := s[index].(status := Cancelled)];
      assert t[index].id == r.id;
      Outcome(CancelAccepted, t)
    else
      match Window(codec, r.startTime, r.endTime, now)
      case None => Outcome(InternalError, s)
      case Some(w) =>
        var a := NewRecord(codec, r, w, if r.cancelled then Cancelled else Active);
        var t := if index >= 0 then s[index := a] else s + [a];
        assert t[if index >= 0 then index else |s|] == a;
        Outcome(if r.cancelled then CancelAccepted else Accepted, t)
  }

  /** One webhook call: the stale sweep, then resolution, then reconciliation. */
  function Ingest(codec: TimeCodec, s: seq<Appointment>, p: Payload, now: int): (o: Outcome)
    ensures o.reply == MissingId <==> Resolve(p).None?
    ensures o.reply == MissingId ==> o.store == Sweep(codec.parse, s, now)
    ensures |o.store| <= |s| + 1
  {
    var swept := Sweep(codec.parse, s, now);
    match Resolve(p)
    case None => Outcome(MissingId, swept)
    case Some(r) => Reconcile(codec, swept, r, now)
  }

  /** An event without any id is dropped: the store is what the sweep left. */
  lemma IngestWithoutId(codec: TimeCodec, s: seq<Appointment>, p: Payload, now: int)
    requires forall i :: 0 <= i < |IdChain(p)| ==> !Truthy(IdChain(p)[i])
    ensures Ingest(codec, s, p, now) == Outcome(MissingId, Sweep(codec.parse, s, now))
  {
  }

  /** Cancelling a known id sets that record's status and nothing else. */
  lemma CancelKnownId(codec: TimeCodec, s: seq<Appointment>, r: Resolved, now: int)
    requires r.cancelled && HasId(s, r.id)
    ensures var out, i := Reconcile(codec, s, r, now), IndexOf(s, r.id);
      out.reply == CancelAccepted && |out.store| == |s| && s[i].id == r.id &&
      out.store[i] == s[i].(status := Cancelled) &&
      forall k :: 0 <= k < |s| && k != i ==> out.store[k] == s[k]
  {
  }

  /** A cancellation for an unseen id appends exactly one cancelled record, unless a time cannot be formatted. */
  lemma CancelUnknownId(codec: TimeCodec, s: seq<Appointment>, r: Resolved, now: int)
    requires r.cancelled && !HasId(s, r.id)
    ensures var out, w := Reconcile(codec, s, r, now), Window(codec, r.startTime, r.endTime, now);
      if w.None? then out == Outcome(InternalError, s)
      else
        out.reply == CancelAccepted && |out.store| == |s| + 1 && out.store[..|s|] == s &&
        out.store[|s|].id == r.id && out.store[|s|].status == Cancelled &&
        out.store[|s|].startTime == w.value.0 && out.store[|s|].endTime == w.value.1
  {
    var out := Reconcile(codec, s, r, now);
    if Window(codec, r.startTime, r.endTime, now).Some? {
      assert out.store[..|s|] == s;
    }
  }

  /** A cancellation without times for an unseen id gets the half hour from `now`, 30 minutes long. */
  lemma CancelPlaceholderWindow(codec: TimeCodec, s: seq<Appointment>, r: Resolved, now: int)
    requires RoundTrips(codec)
    requires r.cancelled && !HasId(s, r.id) && r.startTime.None? && r.endTime.None?
    ensures var out := Reconcile(codec, s, r, now);
      |out.store| == |s| + 1 &&
      var a := out.store[|s|];
      a.status == Cancelled &&
      codec.parse(a.startTime) == Some(now) &&
      codec.parse(a.endTime) == Some(now + HalfHourMs) &&
      a.durationMinutes == Some(30)
  {
    WindowDefaults(codec, r.startTime, r.endTime, now);
    var w := Window(codec, r.startTime, r.endTime, now).value;
    DurationWholeMinutes(codec.parse, w.0, w.1, 30);
  }

  /** A booking event replaces the known record or appends one: active, with a recomputed duration. */
  lemma BookingUpserts(codec: TimeCodec, s: seq<Appointment>, r: Resolved, now: int)
    requires !r.cancelled
    ensures var out, w := Reconcile(codec, s, r, now), Window(codec, r.startTime, r.endTime, now);
      if w.None? then out == Outcome(InternalError, s)
      else
        var i := if HasId(s, r.id) then IndexOf(s, r.id) else |s|;
        out.reply == Accepted &&
        |out.store| == (if HasId(s, r.id) then |s| else |s| + 1) &&
        IndexOf(out.store, r.id) == i &&
        out.store[i].status == Active &&
        out.store[i].startTime == w.value.0 && out.store[i].endTime == w.value.1 &&
        out.store[i].clientName == r.clientName && out.store[i].coachName == r.coachName &&
        out.store[i].durationMinutes == DurationMinutes(codec.parse, w.value.0, w.value.1) &&
        forall k :: 0 <= k < |s| && k != i ==> out.store[k] == s[k]
  {
    var out, w := Reconcile(codec, s, r, now), Window(codec, r.startTime, r.endTime, now);
    if w.Some? {
      var i := if HasId(s, r.id) then IndexOf(s, r.id) else |s|;
      assert out.store[i].id == r.id;
      assert forall k :: 0 <= k < i ==> out.store[k] == s[k];
      IndexAt(out.store, r.id, i);
    }
  }

  /** The first record carrying `id` is at `i` when `i` holds it and no earlier one does. */
  lemma IndexAt(s: seq<Appointment>, id: string, i: nat)
    requires i < |s| && s[i].id == id
    requires forall k :: 0 <= k < i ==> s[k].id != id
    ensures IndexOf(s, id) == i
  {
  }

  /** Reconciliation never creates a second record for an id. */
  lemma ReconcileKeepsUniqueIds(codec: TimeCodec, s: seq<Appointment>, r: Resolved, now: int)
    requires UniqueIds(s)
    ensures UniqueIds(Reconcile(codec, s, r, now).store)
  {
    var index := IndexOf(s, r.id);
    var out := Reconcile(codec, s, r, now).store;
    if index < 0 && Window(codec, r.startTime, r.endTime, now).Some? {
      forall i, j | 0 <= i < j < |out| ensures out[i].id != out[j].id {
        if j == |s| {
          assert out[i] == s[i] && out[j].id == r.id;
        } else {
          assert out[i] == s[i] && out[j] == s[j];
        }
      }
    }
  }

  /** Every webhook call keeps the ids of the store unique. */
  lemma IngestKeepsUniqueIds(codec: TimeCodec, s: seq<Appointment>, p: Payload, now: int)
    requires UniqueIds(s)
    ensures UniqueIds(Ingest(codec, s, p, now).store)
  {
    SweepKeepsUniqueIds(codec.parse, s, now);
    if Resolve(p).Some? {
      ReconcileKeepsUniqueIds(codec, Sweep(codec.parse, s, now), Resolve(p).value, now);
    }
  }

  /** Delivering the same event twice at the same instant has the effect of delivering it once. */
  lemma ReconcileIdempotent(codec: TimeCodec, s: seq<Appointment>, r: Resolved, now: int)
    ensures var once := Reconcile(codec, s, r, now);
      Reconcile(codec, once.store, r, now) == once
  {
    var once := Reconcile(codec, s, r, now);
    var w := Window(codec, r.startTime, r.endTime, now);
    var index := IndexOf(s, r.id);
    if r.cancelled && index >= 0 {
      IndexAt(once.store, r.id, index);
      assert once.store[index := once.store[index].(status := Cancelled)] == once.store;
    } else if w.Some? {
      var i := if index >= 0 then index else |s|;
      assert once.store[i].id == r.id;
      assert forall k :: 0 <= k < i ==> once.store[k] == s[k];
      IndexAt(once.store, r.id, i);
      if r.cancelled {
        assert once.store[i := once.store[i].(status := Cancelled)] == once.store;
      }
    }
  }

  /** The record a booking or placeholder event writes ends at or after `now`. */
  predicate LiveEvent(codec: TimeCodec, r: Resolved, now: int) {
    var w := Window(codec, r.startTime, r.endTime, now);
    w.Some? && codec.parse(w.value.1).Some? && codec.parse(w.value.1).value >= now
  }

  /** Reconciling a live event into a store of live records leaves only live records. */
  lemma ReconcileKeepsLive(codec: TimeCodec, s: seq<Appointment>, r: Resolved, now: int)
    requires forall i :: 0 <= i < |s| ==> Live(codec.parse, s[i], now)
    requires LiveEvent(codec, r, now)
    ensures var out := Reconcile(codec, s, r, now).store;
      forall i :: 0 <= i < |out| ==> Live(codec.parse, out[i], now)
  {
    var index := IndexOf(s, r.id);
    var out := Reconcile(codec, s, r, now).store;
    var w := Window(codec, r.startTime, r.endTime, now).value;
    if r.cancelled && index >= 0 {
      assert forall i :: 0 <= i < |out| ==> out[i].endTime == s[i].endTime;
    } else {
      assert forall i :: 0 <= i < |out| ==> (i < |s| && out[i] == s[i]) || out[i].endTime == w.1;
    }
  }

  /**
   * The one event whose replay is not a no-op: a booking for a known id that
   * is not the last record, whose new record has already ended. The second
   * sweep removes it and the replay appends it at the end.
   */
  predicate MovesOnReplay(codec: TimeCodec, swept: seq<Appointment>, r: Resolved, now: int) {
    && !r.cancelled
    && Window(codec, r.startTime, r.endTime, now).Some?
    && !LiveEvent(codec, r, now)
    && 0 <= IndexOf(swept, r.id) < |swept| - 1
  }

  /**
   * Replaying an event on the store its first delivery left, after that
   * store's sweep, gives the same outcome again.
   */
  lemma ReplayAfterSweep(codec: TimeCodec, swept: seq<Appointment>, r: Resolved, now: int)
    requires forall i :: 0 <= i < |swept| ==> Live(codec.parse, swept[i], now)
    requires !MovesOnReplay(codec, swept, r, now)
    ensures var once := Reconcile(codec, swept, r, now);
      Reconcile(codec, Sweep(codec.parse, once.store, now), r, now) == once
  {
    var once := Reconcile(codec, swept, r, now);
    var index := IndexOf(swept, r.id);
    var w := Window(codec, r.startTime, r.endTime, now);
    if LiveEvent(codec, r, now) {
      ReconcileKeepsLive(codec, swept, r, now);
      SweepAllLive(codec.parse, once.store, now);
      ReconcileIdempotent(codec, swept, r, now);
    } else if r.cancelled && index >= 0 {
      assert forall i :: 0 <= i < |once.store| ==> once.store[i].endTime == swept[i].endTime;
      SweepAllLive(codec.parse, once.store, now);
      ReconcileIdempotent(codec, swept, r, now);
    } else if w.None? {
      SweepAllLive(codec.parse, swept, now);
    } else {
      ReplayEnded(codec, swept, r, now);
    }
  }

  /** An event whose record has already ended is swept away again before its replay, which re-adds it. */
  lemma ReplayEnded(codec: TimeCodec, swept: seq<Appointment>, r: Resolved, now: int)
    requires forall i :: 0 <= i < |swept| ==> Live(codec.parse, swept[i], now)
    requires !MovesOnReplay(codec, swept, r, now)
    requires Window(codec, r.startTime, r.endTime, now).Some? && !LiveEvent(codec, r, now)
    requires !(r.cancelled && IndexOf(swept, r.id) >= 0)
    ensures var once := Reconcile(codec, swept, r, now);
      Reconcile(codec, Sweep(codec.parse, once.store, now), r, now) == once
  {
    var index := IndexOf(swept, r.id);
    var w := Window(codec, r.startTime, r.endTime, now).value;
    var a := NewRecord(codec, r, w, if r.cancelled then Cancelled else Active);
    var front := if index < 0 then swept else swept[..index];
    var once := Reconcile(codec, swept, r, now);
    assert once.store == front + [a] by {
      EndedLandsLast(codec, swept, r, now);
    }
    assert Sweep(codec.parse, once.store, now) == front by {
      assert !Live(codec.parse, a, now);
      SweepSingleton(codec.parse, a, now);
      SweepConcat(codec.parse, front, [a], now);
      assert forall i :: 0 <= i < |front| ==> front[i] == swept[i];
      SweepAllLive(codec.parse, front, now);
    }
    assert Reconcile(codec, front, r, now) == once by {
      EndedLandsLast(codec, swept, r, now);
      assert !HasId(front, r.id);
      Appends(codec, front, r, now);
    }
  }

  /** Outside the moving case, an event that neither cancels a known id nor fails lands at the end of the store. */
  lemma EndedLandsLast(codec: TimeCodec, swept: seq<Appointment>, r: Resolved, now: int)
    requires !MovesOnReplay(codec, swept, r, now)
    requires Window(codec, r.startTime, r.endTime, now).Some? && !LiveEvent(codec, r, now)
    requires !(r.cancelled && IndexOf(swept, r.id) >= 0)
    ensures var index, w := IndexOf(swept, r.id), Window(codec, r.startTime, r.endTime, now).value;
      Reconcile(codec, swept, r, now)
      == Outcome(if r.cancelled then CancelAccepted else Accepted,
                 (if index < 0 then swept else swept[..index])
                 + [NewRecord(codec, r, w, if r.cancelled then Cancelled else Active)])
  {
    var index := IndexOf(swept, r.id);
    if index < 0 {
      Appends(codec, swept, r, now);
    } else {
      var w := Window(codec, r.startTime, r.endTime, now).value;
      var a := NewRecord(codec, r, w, Active);
      assert swept[index := a] == swept[..index] + [a];
    }
  }

  /** An event for an id the store lacks appends its record. */
  lemma Appends(codec: TimeCodec, s: seq<Appointment>, r: Resolved, now: int)
    requires !HasId(s, r.id)
    requires Window(codec, r.startTime, r.endTime, now).Some?
    ensures var w := Window(codec, r.startTime, r.endTime, now).value;
      Reconcile(codec, s, r, now)
      == Outcome(if r.cancelled then CancelAccepted else Accepted,
                 s + [NewRecord(codec, r, w, if r.cancelled then Cancelled else Active)])
  {
  }

  /** A webhook delivered twice at the same instant leaves the store as one delivery does. */
  lemma IngestIdempotent(codec: TimeCodec, s: seq<Appointment>, p: Payload, now: int)
    requires Resolve(p).Some? ==> !MovesOnReplay(codec, Sweep(codec.parse, s, now), Resolve(p).value, now)
    ensures var once := Ingest(codec, s, p, now);
      Ingest(codec, once.store, p, now) == once
  {
    SweepIdempotent(codec.parse, s, now);
    if Resolve(p).Some? {
      ReplayAfterSweep(codec, Sweep(codec.parse, s, now), Resolve(p).value, now);
    }
  }
}
