/**
 * The appointment record, the stale sweep (`cleanupOldAppointments`) and the
 * search by id (`appointments.findIndex`).
 */
module Appointments {
  import opened Wrappers

  datatype Status = Active | Cancelled

  /** One stored record; `durationMinutes` is `None` for `undefined`. */
  datatype Appointment = Appointment(
    id: string, clientName: string, coachName: string,
    startTime: string, endTime: string,
    durationMinutes: Option<int>, status: Status)

  /** The sweep keeps a record whose end parses and is not before `now`. */
  predicate Live(parse: string -> Option<int>, a: Appointment, now: int) {
    parse(a.endTime).Some? && parse(a.endTime).value >= now
  }

  /** A record live at some instant was live at every earlier one; one whose end does not parse is never live. */
  lemma LiveEarlier(parse: string -> Option<int>, a: Appointment, earlier: int, later: int)
    requires earlier <= later
    ensures Live(parse, a, later) ==> Live(parse, a, earlier)
    ensures parse(a.endTime).None? ==> !Live(parse, a, earlier)
  {
  }

  /** `appointments.filter(a => !isNaN(end) && end >= now)`. */
  function Sweep(parse: string -> Option<int>, s: seq<Appointment>, now: int): (r: seq<Appointment>)
    ensures |r| <= |s|
    ensures forall i :: 0 <= i < |r| ==> Live(parse, r[i], now)
  {
    if s == [] then []
    else (if Live(parse, s[0], now) then [s[0]] else []) + Sweep(parse, s[1..], now)
  }

  /** The sweep of a concatenation is the concatenation of the sweeps: relative order is kept. */
  lemma {:induction false} SweepConcat(parse: string -> Option<int>, a: seq<Appointment>, b: seq<Appointment>, now: int)
    ensures Sweep(parse, a + b, now) == Sweep(parse, a, now) + Sweep(parse, b, now)
  {
    if a != [] {
      assert (a + b)[0] == a[0] && (a + b)[1..] == a[1..] + b;
      SweepConcat(parse, a[1..], b, now);
      var head := if Live(parse, a[0], now) then [a[0]] else [];
      calc {
        Sweep(parse, a + b, now);
        head + Sweep(parse, a[1..] + b, now);
        head + (Sweep(parse, a[1..], now) + Sweep(parse, b, now));
        (head + Sweep(parse, a[1..], now)) + Sweep(parse, b, now);
      }
    } else {
      assert a + b == b;
    }
  }

  /** A single record survives exactly when it is live: one ending exactly at `now` is kept. */
  lemma SweepSingleton(parse: string -> Option<int>, a: Appointment, now: int)
    ensures Sweep(parse, [a], now) == if Live(parse, a, now) then [a] else []
    ensures parse(a.endTime) == Some(now) ==> Sweep(parse, [a], now) == [a]
    ensures parse(a.endTime) == Some(now - 1) ==> Sweep(parse, [a], now) == []
    ensures parse(a.endTime) == None ==> Sweep(parse, [a], now) == []
  {
    assert [a][1..] == [];
  }

  /** The records after the sweep are exactly the live records before it. */
  lemma {:induction false} SweepMembers(parse: string -> Option<int>, s: seq<Appointment>, now: int, x: Appointment)
    ensures x in Sweep(parse, s, now) <==> x in s && Live(parse, x, now)
  {
    if s != [] {
      SweepMembers(parse, s[1..], now, x);
      assert s == [s[0]] + s[1..];
    }
  }

  /** Sweeping twice with the same clock is sweeping once. */
  lemma {:induction false} SweepIdempotent(parse: string -> Option<int>, s: seq<Appointment>, now: int)
    ensures Sweep(parse, Sweep(parse, s, now), now) == Sweep(parse, s, now)
  {
    SweepLater(parse, s, now, now);
  }

  /** A later sweep subsumes an earlier one. */
  lemma {:induction false} SweepLater(parse: string -> Option<int>, s: seq<Appointment>, earlier: int, later: int)
    requires earlier <= later
    ensures Sweep(parse, Sweep(parse, s, earlier), later) == Sweep(parse, s, later)
  {
    if s != [] {
      var head := if Live(parse, s[0], earlier) then [s[0]] else [];
      SweepConcat(parse, head, Sweep(parse, s[1..], earlier), later);
      SweepLater(parse, s[1..], earlier, later);
      if Live(parse, s[0], earlier) {
        SweepSingleton(parse, s[0], later);
      }
    }
  }

  /** A store whose records are all live is left as it is. */
  lemma {:induction false} SweepAllLive(parse: string -> Option<int>, s: seq<Appointment>, now: int)
    requires forall i :: 0 <= i < |s| ==> Live(parse, s[i], now)
    ensures Sweep(parse, s, now) == s
  {
    if s != [] {
      SweepAllLive(parse, s[1..], now);
      assert s == [s[0]] + s[1..];
    }
  }

  /** No two records share an id. */
  predicate UniqueIds(s: seq<Appointment>) {
    forall i, j :: 0 <= i < j < |s| ==> s[i].id != s[j].id
  }

  predicate HasId(s: seq<Appointment>, id: string) {
    exists k :: 0 <= k < |s| && s[k].id == id
  }

  /** The sweep only removes records, so ids that were unique stay unique. */
  lemma {:induction false} SweepKeepsUniqueIds(parse: string -> Option<int>, s: seq<Appointment>, now: int)
    requires UniqueIds(s)
    ensures UniqueIds(Sweep(parse, s, now))
  {
    if s != [] {
      var rest := Sweep(parse, s[1..], now);
      SweepKeepsUniqueIds(parse, s[1..], now);
      if Live(parse, s[0], now) {
        forall k | 0 <= k < |rest| ensures rest[k].id != s[0].id {
          SweepMembers(parse, s[1..], now, rest[k]);
          var m :| 0 <= m < |s[1..]| && s[1..][m] == rest[k];
          assert s[m + 1] == rest[k];
        }
        var r := [s[0]] + rest;
        forall i, j | 0 <= i < j < |r| ensures r[i].id != r[j].id {
          if i == 0 { assert r[j] == rest[j - 1]; }
          else { assert r[i] == rest[i - 1] && r[j] == rest[j - 1]; }
        }
      }
    }
  }

  /** `findIndex(a => a.id === id)`: the first index holding `id`, or -1. */
  function IndexOf(s: seq<Appointment>, id: string): (i: int)
    ensures -1 <= i < |s|
    ensures i == -1 <==> !HasId(s, id)
    ensures i >= 0 ==> s[i].id == id && forall k :: 0 <= k < i ==> s[k].id != id
  {
    if s == [] then -1
    else if s[0].id == id then 0
    else
      var i := IndexOf(s[1..], id);
      assert forall k :: 1 <= k < |s| ==> s[k] == s[1..][k - 1];
      if i == -1 then -1 else i + 1
  }

  /** The linear search `findIndex` performs. */
  method FindIndex(s: seq<Appointment>, id: string) returns (index: int)
    ensures -1 <= index < |s|
    ensures index == -1 <==> forall k :: 0 <= k < |s| ==> s[k].id != id
    ensures index >= 0 ==> s[index].id == id && forall k :: 0 <= k < index ==> s[k].id != id
    ensures index == IndexOf(s, id)
  {
    var k := 0;
    while k < |s|
      invariant 0 <= k <= |s|
      invariant forall m :: 0 <= m < k ==> s[m].id != id
    {
      if s[k].id == id {
        return k;
      }
      k := k + 1;
    }
    return -1;
  }
}
