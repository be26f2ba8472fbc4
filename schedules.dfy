/** A cron schedule, seen from outside the `cron` crate: the ascending fire
    times it produces, of which `upcoming(Utc)` yields those strictly after
    the current clock reading. Instants are nanoseconds since the Unix epoch,
    the resolution of `DateTime<Utc>`. */
module Schedules {
  import opened Outcomes

  type Instant = int

  const NanosPerSecond: int := 1_000_000_000

  /** The fire times of a parsed schedule, finitely many, in the order the
      schedule produces them. */
  datatype Schedule = Schedule(instants: seq<Instant>)

  predicate Sorted(xs: seq<Instant>) {
    forall i, j :: 0 <= i < j < |xs| ==> xs[i] <= xs[j]
  }

  /** Cron expressions have a seconds field and nothing finer. */
  predicate WholeSeconds(s: Schedule) {
    forall i :: 0 <= i < |s.instants| ==> s.instants[i] % NanosPerSecond == 0
  }

  /** The elements of `xs` strictly after `now`, in their order. */
  function After(xs: seq<Instant>, now: Instant): (r: seq<Instant>)
    ensures forall i :: 0 <= i < |r| ==> r[i] > now && r[i] in xs
    ensures forall x :: x in xs && x > now ==> x in r
    decreases |xs|
  {
    if |xs| == 0 then []
    else
      var rest := After(xs[1..], now);
      assert forall x :: x in xs[1..] ==> x in xs;
      if xs[0] > now then [xs[0]] + rest else rest
  }

  lemma SortedTail(xs: seq<Instant>)
    requires |xs| > 0 && Sorted(xs)
    ensures Sorted(xs[1..]) && forall x :: x in xs[1..] ==> xs[0] <= x
  {
    var tail := xs[1..];
    forall i, j | 0 <= i < j < |tail| ensures tail[i] <= tail[j] {
      assert tail[i] == xs[i + 1] && tail[j] == xs[j + 1];
    }
    forall x | x in tail ensures xs[0] <= x {
      var j :| 0 <= j < |tail| && tail[j] == x;
      assert tail[j] == xs[j + 1];
    }
  }

  lemma SortedCons(x: Instant, rest: seq<Instant>)
    requires Sorted(rest) && forall y :: y in rest ==> x <= y
    ensures Sorted([x] + rest)
  {
    var r := [x] + rest;
    forall i, j | 0 <= i < j < |r| ensures r[i] <= r[j] {
      assert r[j] == rest[j - 1] && r[j] in rest;
      if i > 0 {
        assert r[i] == rest[i - 1];
      }
    }
  }

  /** Filtering keeps the order. */
  lemma {:induction false} AfterSorted(xs: seq<Instant>, now: Instant)
    requires Sorted(xs)
    ensures Sorted(After(xs, now))
    decreases |xs|
  {
    if |xs| > 0 {
      SortedTail(xs);
      AfterSorted(xs[1..], now);
      var rest := After(xs[1..], now);
      if xs[0] > now {
        assert forall y :: y in rest ==> y in xs[1..];
        SortedCons(xs[0], rest);
      }
    }
  }

  /** `schedule.upcoming(Utc)` read at clock `now`. */
  function Upcoming(s: Schedule, now: Instant): seq<Instant> {
    After(s.instants, now)
  }

  /** `iterator.next()`: the first element, if any. */
  function First(xs: seq<Instant>): Option<Instant> {
    if |xs| == 0 then None else Some(xs[0])
  }

  /** The position of the first element of `xs` different from `t`, or
      `|xs|` when every element equals `t`. */
  function FirstOtherIndex(xs: seq<Instant>, t: Instant): (k: nat)
    ensures k <= |xs|
    ensures forall j :: 0 <= j < k ==> xs[j] == t
    ensures k < |xs| ==> xs[k] != t
    decreases |xs|
  {
    if |xs| == 0 || xs[0] != t then 0 else 1 + FirstOtherIndex(xs[1..], t)
  }

  /** `iterator.find(|x| x != t)`: the first element different from `t`. */
  function FindOther(xs: seq<Instant>, t: Instant): (r: Option<Instant>)
    ensures r.None? <==> forall i :: 0 <= i < |xs| ==> xs[i] == t
    ensures r.Some? ==> r.value in xs && r.value != t
  {
    var k := FirstOtherIndex(xs, t);
    if k < |xs| then Some(xs[k]) else None
  }

  /** For an ascending schedule the first upcoming fire time is the earliest
      fire time after `now`, and there is none exactly when no fire time lies
      after `now`. */
  lemma FirstUpcomingIsEarliest(s: Schedule, now: Instant)
    requires Sorted(s.instants)
    ensures First(Upcoming(s, now)).None? <==> forall x :: x in s.instants ==> x <= now
    ensures First(Upcoming(s, now)).Some? ==>
              var n := First(Upcoming(s, now)).value;
              n in s.instants && n > now && forall x :: x in s.instants && x > now ==> n <= x
  {
    var up := Upcoming(s, now);
    AfterSorted(s.instants, now);
    if |up| > 0 {
      forall x | x in s.instants && x > now ensures up[0] <= x {
        var i :| 0 <= i < |up| && up[i] == x;
      }
    }
  }

  /** In an ascending sequence, the first element other than `t` is at most
      every element other than `t`. */
  lemma FindOtherLeast(xs: seq<Instant>, t: Instant, x: Instant)
    requires Sorted(xs) && x in xs && x != t && FindOther(xs, t).Some?
    ensures FindOther(xs, t).value <= x
  {
    var k := FirstOtherIndex(xs, t);
    var i :| 0 <= i < |xs| && xs[i] == x;
    assert i >= k;
  }

  /** For an ascending schedule, `find(|x| x != t)` over the upcoming fire
      times gives the earliest fire time after `now` other than `t`, and
      nothing exactly when every fire time after `now` equals `t`. */
  lemma FindOtherIsEarliest(s: Schedule, now: Instant, t: Instant)
    requires Sorted(s.instants)
    ensures FindOther(Upcoming(s, now), t).None? <==>
              forall x :: x in s.instants && x > now ==> x == t
    ensures FindOther(Upcoming(s, now), t).Some? ==>
              var n := FindOther(Upcoming(s, now), t).value;
              n in s.instants && n > now && n != t &&
              forall x :: x in s.instants && x > now && x != t ==> n <= x
  {
    var up := Upcoming(s, now);
    AfterSorted(s.instants, now);
    var r := FindOther(up, t);
    if r.None? {
      forall x | x in s.instants && x > now ensures x == t {
        var i :| 0 <= i < |up| && up[i] == x;
      }
    } else {
      forall x | x in s.instants && x > now && x != t ensures r.value <= x {
        FindOtherLeast(up, t, x);
      }
    }
  }
}
