/**
 * The view projector of `/api/appointments`: the records that have not
 * ended, ascending by start time.
 */
module View {
  import opened Wrappers
  import opened Appointments

  /**
   * The comparator `new Date(a.startTime) - new Date(b.startTime)` is
   * negative. A comparison involving an invalid date yields `NaN`, which
   * the sort reads as "equal".
   */
  predicate StartsBefore(parse: string -> Option<int>, a: Appointment, b: Appointment) {
    parse(a.startTime).Some? && parse(b.startTime).Some? &&
    parse(a.startTime).value < parse(b.startTime).value
  }

  /** The comparison is a strict order: irreflexive, asymmetric and transitive. */
  lemma StartsBeforeStrict(parse: string -> Option<int>, a: Appointment, b: Appointment, c: Appointment)
    ensures !StartsBefore(parse, a, a)
    ensures StartsBefore(parse, a, b) ==> !StartsBefore(parse, b, a)
    ensures StartsBefore(parse, a, b) && StartsBefore(parse, b, c) ==> StartsBefore(parse, a, c)
  {
  }

  predicate StartsParse(parse: string -> Option<int>, s: seq<Appointment>) {
    forall i :: 0 <= i < |s| ==> parse(s[i].startTime).Some?
  }

  /** Start times that parse never decrease along `s`. */
  predicate SortedByStart(parse: string -> Option<int>, s: seq<Appointment>) {
    forall i, j :: 0 <= i < j < |s| ==> !StartsBefore(parse, s[j], s[i])
  }

  /** `x` placed before the first record that does not start before it. */
  function Insert(parse: string -> Option<int>, x: Appointment, s: seq<Appointment>): (r: seq<Appointment>)
    ensures multiset(r) == multiset(s) + multiset{x}
  {
    if s == [] then [x]
    else if StartsBefore(parse, s[0], x) then
      assert s == [s[0]] + s[1..];
      [s[0]] + Insert(parse, x, s[1..])
    else [x] + s
  }

  /** The stable sort `Array.prototype.sort` performs with that comparator. */
  function SortByStart(parse: string -> Option<int>, s: seq<Appointment>): (r: seq<Appointment>)
    ensures multiset(r) == multiset(s)
  {
    if s == [] then []
    else
      assert s == [s[0]] + s[1..];
      Insert(parse, s[0], SortByStart(parse, s[1..]))
  }

  lemma {:induction false} InsertSorted(parse: string -> Option<int>, x: Appointment, s: seq<Appointment>)
    requires parse(x.startTime).Some? && StartsParse(parse, s) && SortedByStart(parse, s)
    ensures StartsParse(parse, Insert(parse, x, s)) && SortedByStart(parse, Insert(parse, x, s))
  {
    InsertMembers(parse, x, s);
    if s == [] {
    } else if StartsBefore(parse, s[0], x) {
      var t := Insert(parse, x, s[1..]);
      InsertSorted(parse, x, s[1..]);
      InsertMembers(parse, x, s[1..]);
      forall k | 0 <= k < |t| ensures !StartsBefore(parse, t[k], s[0]) {
        assert t[k] in t;
        if t[k] != x {
          var m :| 0 <= m < |s[1..]| && s[1..][m] == t[k];
          assert s[m + 1] == t[k];
        }
      }
      ConsSorted(parse, s[0], t);
    } else {
      ConsSorted(parse, x, s);
    }
  }

  lemma InsertMembers(parse: string -> Option<int>, x: Appointment, s: seq<Appointment>)
    ensures forall y :: y in Insert(parse, x, s) <==> y == x || y in s
  {
    forall y ensures y in Insert(parse, x, s) <==> y == x || y in s {
      assert y in Insert(parse, x, s) <==> y in multiset(Insert(parse, x, s));
    }
  }

  lemma ConsSorted(parse: string -> Option<int>, y: Appointment, t: seq<Appointment>)
    requires SortedByStart(parse, t)
    requires forall k :: 0 <= k < |t| ==> !StartsBefore(parse, t[k], y)
    ensures SortedByStart(parse, [y] + t)
  {
    var r := [y] + t;
    forall i, j | 0 <= i < j < |r| ensures !StartsBefore(parse, r[j], r[i]) {
      assert r[j] == t[j - 1];
      if i > 0 { assert r[i] == t[i - 1]; }
    }
  }

  /** When every start time parses, the sort leaves them in ascending order. */
  lemma {:induction false} SortByStartSorted(parse: string -> Option<int>, s: seq<Appointment>)
    requires StartsParse(parse, s)
    ensures SortedByStart(parse, SortByStart(parse, s))
  {
    if s != [] {
      SortByStartSorted(parse, s[1..]);
      SortStartsParse(parse, s[1..]);
      InsertSorted(parse, s[0], SortByStart(parse, s[1..]));
    }
  }

  lemma SortStartsParse(parse: string -> Option<int>, s: seq<Appointment>)
    requires StartsParse(parse, s)
    ensures StartsParse(parse, SortByStart(parse, s))
  {
    var r := SortByStart(parse, s);
    forall i | 0 <= i < |r| ensures parse(r[i].startTime).Some? {
      assert r[i] in multiset(r);
      assert r[i] in multiset(s);
    }
  }

  /** `appointments.filter(not ended).sort(by start)`. */
  function Upcoming(parse: string -> Option<int>, s: seq<Appointment>, now: int): (v: seq<Appointment>)
    ensures multiset(v) == multiset(Sweep(parse, s, now))
    ensures |v| <= |s|
  {
    var v := SortByStart(parse, Sweep(parse, s, now));
    assert |v| == |multiset(v)| == |Sweep(parse, s, now)|;
    v
  }

  /**
   * The view holds exactly the live records, each as often as in the store,
   * every one ending at or after `now`, and ascending by start when every
   * live record's start time parses.
   */
  lemma UpcomingSpec(parse: string -> Option<int>, s: seq<Appointment>, now: int)
    ensures multiset(Upcoming(parse, s, now)) == multiset(Sweep(parse, s, now))
    ensures forall a :: a in Upcoming(parse, s, now) <==> a in s && Live(parse, a, now)
    ensures StartsParse(parse, Sweep(parse, s, now)) ==> SortedByStart(parse, Upcoming(parse, s, now))
  {
    var v := Upcoming(parse, s, now);
    forall a ensures a in v <==> a in s && Live(parse, a, now) {
      SweepMembers(parse, s, now, a);
      assert a in v <==> a in multiset(v);
    }
    if StartsParse(parse, Sweep(parse, s, now)) {
      SortByStartSorted(parse, Sweep(parse, s, now));
    }
  }

  /** Showing the view of a swept store is showing the sorted sweep: the lazy sweep loses nothing. */
  lemma UpcomingAfterSweep(parse: string -> Option<int>, s: seq<Appointment>, now: int)
    ensures Upcoming(parse, Sweep(parse, s, now), now) == SortByStart(parse, Sweep(parse, s, now))
  {
    SweepIdempotent(parse, s, now);
  }

  /** With unique ids in the store, no id appears twice in the view. */
  lemma UpcomingUniqueIds(parse: string -> Option<int>, s: seq<Appointment>, now: int)
    requires UniqueIds(s)
    ensures UniqueIds(Upcoming(parse, s, now))
  {
    var w := Sweep(parse, s, now);
    SweepKeepsUniqueIds(parse, s, now);
    PermutationKeepsUniqueIds(w, SortByStart(parse, w));
  }

  lemma PermutationKeepsUniqueIds(a: seq<Appointment>, b: seq<Appointment>)
    requires UniqueIds(a) && multiset(a) == multiset(b)
    ensures UniqueIds(b)
  {
    forall i, j | 0 <= i < j < |b| ensures b[i].id != b[j].id {
      if b[i].id == b[j].id {
        assert b[i] in multiset(a) && b[j] in multiset(a);
        var m :| 0 <= m < |a| && a[m] == b[i];
        var n :| 0 <= n < |a| && a[n] == b[j];
        if m == n {
          // b[i] == b[j] would occur twice in b, but only once in a
          assert b[i] == b[j];
          OccursTwice(b, i, j);
          OccursOnce(a, m);
          assert false;
        }
      }
    }
  }

  lemma OccursTwice(s: seq<Appointment>, i: nat, j: nat)
    requires i < j < |s| && s[i] == s[j]
    ensures multiset(s)[s[i]] >= 2
  {
    assert s == s[..i] + [s[i]] + s[i + 1..j] + [s[j]] + s[j + 1..];
  }

  lemma OccursOnce(s: seq<Appointment>, m: nat)
    requires m < |s| && UniqueIds(s)
    ensures multiset(s)[s[m]] == 1
  {
    assert s == s[..m] + [s[m]] + s[m + 1..];
    assert s[m] !in s[..m] && s[m] !in s[m + 1..];
    assert multiset(s[..m])[s[m]] == 0 && multiset(s[m + 1..])[s[m]] == 0;
  }
}
