/**
 * The field resolver of the `/ghl-webhook` handler: JavaScript truthiness,
 * the `||` fallback chains for id, times and names, and the cancellation flag.
 *
 * A payload field is `None` when the key is missing. A nested block that is
 * missing is the block whose fields are all `None`: the handler replaces it
 * by `{}`.
 */
module FieldResolver {
  import opened Wrappers
  import opened JsText

  type Field = Option<string>

  datatype CustomData = CustomData(
    appointmentId: Field, clientName: Field, coachName: Field,
    isCancelled: Field, startTime: Field, endTime: Field)

  datatype CalendarBlock = CalendarBlock(appointmentId: Field, startTime: Field, endTime: Field)

  datatype UserBlock = UserBlock(firstName: Field)

  /** The webhook body, with the keys the handler reads. */
  datatype Payload = Payload(
    customData: CustomData, calendar: CalendarBlock, user: UserBlock,
    contact_id: Field, contactId: Field, full_name: Field, email: Field,
    startTime: Field, endTime: Field)

  /** The canonical fields of one event, once its id is known. */
  datatype Resolved = Resolved(
    id: string, startTime: Field, endTime: Field,
    clientName: string, coachName: string, cancelled: bool)

  const UnknownClient: string := "Ukendt klient"
  const DefaultCoach: string := "Coach"

  /** A string value is truthy unless it is missing or empty. */
  predicate Truthy(f: Field) {
    f.Some? && f.value != ""
  }

  /** `f0 || f1 || ... || fn`, with `None` when every operand is falsy. */
  function FirstTruthy(fs: seq<Field>): (r: Field)
    ensures r.None? <==> forall i :: 0 <= i < |fs| ==> !Truthy(fs[i])
    ensures r.Some? ==> r.value != "" && r in fs
  {
    if fs == [] then None
    else if Truthy(fs[0]) then fs[0]
    else
      var r := FirstTruthy(fs[1..]);
      assert r.Some? ==> r in fs[1..];
      r
  }

  /** The first truthy operand wins, whatever follows it. */
  lemma {:induction false} FirstTruthyAt(fs: seq<Field>, i: nat)
    requires i < |fs| && Truthy(fs[i])
    requires forall j :: 0 <= j < i ==> !Truthy(fs[j])
    ensures FirstTruthy(fs) == fs[i]
  {
    if i > 0 {
      FirstTruthyAt(fs[1..], i - 1);
    }
  }

  function IdChain(p: Payload): seq<Field> {
    [p.customData.appointmentId, p.calendar.appointmentId, p.contact_id, p.contactId]
  }

  function StartChain(p: Payload): seq<Field> {
    [p.calendar.startTime, p.customData.startTime, p.startTime]
  }

  function EndChain(p: Payload): seq<Field> {
    [p.calendar.endTime, p.customData.endTime, p.endTime]
  }

  function ClientChain(p: Payload): seq<Field> {
    [p.customData.clientName, p.full_name, p.email, p.contact_id]
  }

  function CoachChain(p: Payload): seq<Field> {
    [p.customData.coachName, p.user.firstName]
  }

  /** The three spellings the flag accepts once trimmed and lower-cased. */
  const AcceptedFlags: set<string> := {"true", "1", "yes"}

  /** `String(custom.isCancelled || "").toLowerCase().trim()` is one of the accepted spellings. */
  function CancelFlag(f: Field): (b: bool)
    ensures !Truthy(f) ==> !b
  {
    var raw := if Truthy(f) then f.value else "";
    Trim(Lower(raw)) in AcceptedFlags
  }

  /** The flag holds exactly when the value, trimmed, is an accepted spelling in any letter case. */
  lemma CancelFlagIff(s: string)
    ensures CancelFlag(Some(s)) <==> Lower(Trim(s)) in AcceptedFlags
  {
    LowerTrimCommute(s);
    if s == "" {
      assert Lower(Trim(s)) == "";
    }
  }

  /** Any accepted spelling, in any letter case, with any whitespace around it, sets the flag. */
  lemma CancelFlagPadded(front: string, word: string, back: string)
    requires AllSpace(front) && AllSpace(back)
    requires Lower(word) in AcceptedFlags
    ensures CancelFlag(Some(front + word + back))
  {
    var w := Lower(word);
    assert w == "true" || w == "1" || w == "yes";
    assert !IsSpace(w[0]) && !IsSpace(w[|w| - 1]);
    TrimSurrounded(front, word, back);
    CancelFlagIff(front + word + back);
  }

  /**
   * The handler's resolution: `None` when no id is found (the event is
   * dropped), otherwise the id and times of the chains, the names with
   * their sentinels and the flag.
   */
  function Resolve(p: Payload): (r: Option<Resolved>)
    ensures r.None? <==> forall i :: 0 <= i < |IdChain(p)| ==> !Truthy(IdChain(p)[i])
    ensures r.Some? ==> r.value.id != "" && r.value.clientName != "" && r.value.coachName != ""
    ensures r.Some? ==> r.value.cancelled == CancelFlag(p.customData.isCancelled)
  {
    match FirstTruthy(IdChain(p))
    case None => None
    case Some(id) =>
      Some(Resolved(
        id,
        FirstTruthy(StartChain(p)),
        FirstTruthy(EndChain(p)),
        FirstTruthy(ClientChain(p)).GetOr(UnknownClient),
        FirstTruthy(CoachChain(p)).GetOr(DefaultCoach),
        CancelFlag(p.customData.isCancelled)))
  }

  /** Each resolved field is the value of its chain. */
  lemma ResolveFields(p: Payload)
    requires Resolve(p).Some?
    ensures var r := Resolve(p).value;
      FirstTruthy(IdChain(p)) == Some(r.id) &&
      r.startTime == FirstTruthy(StartChain(p)) &&
      r.endTime == FirstTruthy(EndChain(p)) &&
      r.clientName == FirstTruthy(ClientChain(p)).GetOr(UnknownClient) &&
      r.coachName == FirstTruthy(CoachChain(p)).GetOr(DefaultCoach)
  {
  }

  /** The id is the first truthy of custom data, calendar, `contact_id`, `contactId`. */
  lemma IdPrecedence(p: Payload)
    requires Resolve(p).Some?
    ensures var c, cal := p.customData, p.calendar;
      Resolve(p).value.id ==
        if Truthy(c.appointmentId) then c.appointmentId.value
        else if Truthy(cal.appointmentId) then cal.appointmentId.value
        else if Truthy(p.contact_id) then p.contact_id.value
        else p.contactId.value
  {
    var fs := IdChain(p);
    ResolveFields(p);
    if Truthy(fs[0]) { FirstTruthyAt(fs, 0); }
    else if Truthy(fs[1]) { FirstTruthyAt(fs, 1); }
    else if Truthy(fs[2]) { FirstTruthyAt(fs, 2); }
    else { FirstTruthyAt(fs, 3); }
  }

  /** A start time in the calendar block beats custom data, which beats the top level. */
  lemma StartPrecedence(p: Payload)
    requires Resolve(p).Some?
    ensures var c, cal := p.customData, p.calendar;
      Resolve(p).value.startTime ==
        if Truthy(cal.startTime) then cal.startTime
        else if Truthy(c.startTime) then c.startTime
        else if Truthy(p.startTime) then p.startTime
        else None
  {
    var fs := StartChain(p);
    ResolveFields(p);
    if Truthy(fs[0]) { FirstTruthyAt(fs, 0); }
    else if Truthy(fs[1]) { FirstTruthyAt(fs, 1); }
    else if Truthy(fs[2]) { FirstTruthyAt(fs, 2); }
  }

  /** The end time follows the same precedence as the start time. */
  lemma EndPrecedence(p: Payload)
    requires Resolve(p).Some?
    ensures var c, cal := p.customData, p.calendar;
      Resolve(p).value.endTime ==
        if Truthy(cal.endTime) then cal.endTime
        else if Truthy(c.endTime) then c.endTime
        else if Truthy(p.endTime) then p.endTime
        else None
  {
    var fs := EndChain(p);
    ResolveFields(p);
    if Truthy(fs[0]) { FirstTruthyAt(fs, 0); }
    else if Truthy(fs[1]) { FirstTruthyAt(fs, 1); }
    else if Truthy(fs[2]) { FirstTruthyAt(fs, 2); }
  }

  /** The client name falls back through custom data, full name, email, contact id, then the sentinel. */
  lemma ClientNameFallback(p: Payload)
    requires Resolve(p).Some?
    ensures Resolve(p).value.clientName ==
      if Truthy(p.customData.clientName) then p.customData.clientName.value
      else if Truthy(p.full_name) then p.full_name.value
      else if Truthy(p.email) then p.email.value
      else if Truthy(p.contact_id) then p.contact_id.value
      else UnknownClient
  {
    var fs := ClientChain(p);
    assert Resolve(p).value.clientName == FirstTruthy(fs).GetOr(UnknownClient) by {
      ResolveFields(p);
    }
    if Truthy(fs[0]) { FirstTruthyAt(fs, 0); }
    else if Truthy(fs[1]) { FirstTruthyAt(fs, 1); }
    else if Truthy(fs[2]) { FirstTruthyAt(fs, 2); }
    else if Truthy(fs[3]) { FirstTruthyAt(fs, 3); }
  }

  /** The coach name falls back through custom data, the user's first name, then the sentinel. */
  lemma CoachNameFallback(p: Payload)
    requires Resolve(p).Some?
    ensures Resolve(p).value.coachName ==
      if Truthy(p.customData.coachName) then p.customData.coachName.value
      else if Truthy(p.user.firstName) then p.user.firstName.value
      else DefaultCoach
  {
    var fs := CoachChain(p);
    ResolveFields(p);
    if Truthy(fs[0]) { FirstTruthyAt(fs, 0); }
    else if Truthy(fs[1]) { FirstTruthyAt(fs, 1); }
  }
}
