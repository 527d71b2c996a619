/**
 Waiting time of a sample whose tasks wait concurrently. The code keeps one counter and one start stamp; the
 specification is the total length of the union of the intervals during which some task waits.
 */
module WaitTiming {
  import opened Wrappers

  // ----- the specification: a history of waits ----------------------------------------------------------

  /** A task begins to wait, or stops waiting because it acquired, failed or was cancelled. */
  datatype Event = Begin(id: nat, time: real) | End(id: nat, time: real)

  /** The waits that have begun and not ended. */
  function Open(h: seq<Event>): set<nat> {
    if h == [] then {}
    else match h[|h| - 1]
         case Begin(id, _) => Open(h[..|h| - 1]) + {id}
         case End(id, _) => Open(h[..|h| - 1]) - {id}
  }

  predicate Begun(h: seq<Event>, id: nat) {
    exists i :: 0 <= i < |h| && h[i].Begin? && h[i].id == id
  }

  /** The clock never goes back, a wait begins once, and only an open wait ends. */
  predicate Legal(h: seq<Event>) {
    h != [] ==>
      var n := |h| - 1;
      && Legal(h[..n])
      && (n > 0 ==> h[n - 1].time <= h[n].time)
      && (match h[n]
          case Begin(id, _) => !Begun(h[..n], id)
          case End(id, _) => id in Open(h[..n]))
  }

  function Last(h: seq<Event>, start: real): real {
    if h == [] then start else h[|h| - 1].time
  }

  /** Time up to now during which at least one wait was open: each stretch between two events counts or not. */
  function Busy(h: seq<Event>, now: real): real {
    if h == [] then 0.0
    else
      var t := h[|h| - 1].time;
      Busy(h[..|h| - 1], t) + if Open(h) != {} then now - t else 0.0
  }

  /** Some wait covers the instant x: it began by then and has not ended by then. */
  predicate Covered(h: seq<Event>, x: real) {
    exists i :: 0 <= i < |h| && WaitCovers(h, i, x)
  }

  predicate WaitCovers(h: seq<Event>, i: nat, x: real)
    requires i < |h|
  {
    h[i].Begin? && h[i].time <= x && forall j :: 0 <= j < |h| && h[j].End? && h[j].id == h[i].id ==> x < h[j].time
  }

  // ----- the code -----------------------------------------------------------------------------------------

  class SampleTiming {
    var startTime: real
    var waitingTime: real
    var concurrentWaitCount: int
    var concurrentWaitStart: Option<real>
    ghost var history: seq<Event>

    ghost predicate Valid()
      reads this
    {
      && Legal(history)
      && (history != [] ==> startTime <= history[0].time)
      && startTime <= Last(history, startTime) && 0.0 <= waitingTime
      && (concurrentWaitStart.Some? ==> concurrentWaitStart.value <= Last(history, startTime))
      && concurrentWaitCount == |Open(history)|
      && (concurrentWaitStart.Some? <==> concurrentWaitCount > 0)
      && Accounted(history, waitingTime, concurrentWaitStart, Last(history, startTime))
    }

    constructor (startTime: real)
      ensures Valid() && history == [] && this.startTime == startTime && waitingTime == 0.0
    {
      this.startTime := startTime;
      waitingTime, concurrentWaitCount, concurrentWaitStart := 0.0, 0, None;
      history := [];
    }

    /** The start of sample_waiting_for. */
    method BeginWait(now: real, ghost id: nat)
      requires Valid() && Last(history, startTime) <= now && !Begun(history, id)
      modifies this
      ensures Valid() && history == old(history) + [Begin(id, now)] && startTime == old(startTime)
    {
      if concurrentWaitCount == 0 {
        concurrentWaitStart := Some(now);
      }
      concurrentWaitCount := concurrentWaitCount + 1;
      Appended(history, Begin(id, now), startTime);
      OpenAreBegun(history);
      history := history + [Begin(id, now)];
    }

    /** _end_sample_wait. */
    method EndWait(now: real, ghost id: nat)
      requires Valid() && Last(history, startTime) <= now && id in Open(history)
      modifies this
      ensures Valid() && history == old(history) + [End(id, now)] && startTime == old(startTime)
    {
      concurrentWaitCount := concurrentWaitCount - 1;
      if concurrentWaitCount == 0 && concurrentWaitStart.Some? {
        var waited := now - concurrentWaitStart.value;
        concurrentWaitStart := None;
        waitingTime := waitingTime + waited;
      }
      Appended(history, End(id, now), startTime);
      history := history + [End(id, now)];
    }

    /** sample_working_time. */
    method WorkingTime(now: real) returns (w: real)
      requires Valid() && Last(history, startTime) <= now
      ensures w == now - startTime - waitingTime
      ensures 0.0 <= w <= now - startTime
      ensures Open(history) == {} ==> w == now - startTime - Busy(history, now)
    {
      w := now - startTime - waitingTime;
      BusyBounds(history, startTime, Last(history, startTime));
    }
  }

  /** Reported waiting time plus the wait still open is the time some task was waiting. */
  ghost predicate Accounted(h: seq<Event>, waiting: real, start: Option<real>, now: real) {
    Busy(h, now) == waiting + match start case Some(s) => now - s case None => 0.0
  }

  /** A task inside sample_waiting_for: whatever way the wait ends, it is ended exactly once. */
  class Waiter {
    ghost const id: nat
    var acquired: bool

    constructor (timing: SampleTiming, now: real, ghost id: nat)
      requires timing.Valid() && Last(timing.history, timing.startTime) <= now && !Begun(timing.history, id)
      modifies timing
      ensures timing.Valid() && this.id == id && !acquired
      ensures timing.history == old(timing.history) + [Begin(id, now)]
    {
      this.id := id;
      acquired := false;
      new;
      timing.BeginWait(now, id);
    }

    method Acquire(timing: SampleTiming, now: real)
      requires timing.Valid() && Last(timing.history, timing.startTime) <= now
      requires !acquired && id in Open(timing.history)
      modifies this, timing
      ensures timing.Valid() && acquired
      ensures timing.history == old(timing.history) + [End(id, now)]
    {
      acquired := true;
      timing.EndWait(now, id);
    }

    /** The finally clause, reached after the body, after a failed acquire or after a cancelled one. */
    method Leave(timing: SampleTiming, now: real)
      requires timing.Valid() && Last(timing.history, timing.startTime) <= now
      requires acquired <==> id !in Open(timing.history)
      modifies timing
      ensures timing.Valid() && id !in Open(timing.history)
      ensures timing.history == if acquired then old(timing.history) else old(timing.history) + [End(id, now)]
    {
      if !acquired {
        timing.EndWait(now, id);
        assert timing.history[..|timing.history| - 1] == old(timing.history);
      }
    }
  }

  // ----- lemmas ----------------------------------------------------------------------------------------------

  lemma Appended(h: seq<Event>, e: Event, start: real)
    requires Legal(h) && Last(h, start) <= e.time
    requires if e.Begin? then !Begun(h, e.id) else e.id in Open(h)
    ensures var h' := h + [e];
      && Legal(h') && Last(h', start) == e.time && (h != [] ==> h'[0] == h[0])
      && Open(h') == (if e.Begin? then Open(h) + {e.id} else Open(h) - {e.id})
      && Busy(h', e.time) == Busy(h, Last(h, start)) + if Open(h) != {} then e.time - Last(h, start) else 0.0
  {
    assert (h + [e])[..|h|] == h;
  }

  lemma {:induction false} OpenAreBegun(h: seq<Event>)
    ensures forall id <- Open(h) :: Begun(h, id)
  {
    if h != [] {
      var n := |h| - 1;
      OpenAreBegun(h[..n]);
      forall id | id in Open(h) ensures Begun(h, id) {
        if id in Open(h[..n]) {
          var i :| 0 <= i < n && h[..n][i].Begin? && h[..n][i].id == id;
          assert h[i].Begin?;
        } else {
          assert h[n].Begin? && h[n].id == id;
        }
      }
    }
  }

  lemma {:induction false} BusyBounds(h: seq<Event>, start: real, now: real)
    requires Legal(h) && Last(h, start) <= now && (h != [] ==> start <= h[0].time)
    ensures 0.0 <= Busy(h, now)
    ensures start <= now && Busy(h, now) <= now - start
  {
    if h != [] {
      var n := |h| - 1;
      BusyBounds(h[..n], start, h[n].time);
    }
  }

  /** Between two events the set of open waits decides whether an instant is covered: every stretch that Busy counts
      is covered throughout, every other one nowhere. */
  lemma {:induction false} StretchCovered(h: seq<Event>, k: nat, x: real)
    requires Legal(h) && 0 < k <= |h|
    requires h[k - 1].time <= x && (k < |h| ==> x < h[k].time)
    ensures Covered(h, x) <==> Open(h[..k]) != {}
  {
    Ordered(h);
    var p := h[..k];
    LegalPrefix(h, k);
    if Covered(h, x) {
      var i :| 0 <= i < |h| && WaitCovers(h, i, x);
      assert i < k;
      assert p[i] == h[i];
      assert forall j :: 0 <= j < k && p[j].End? && p[j].id == p[i].id ==> x < h[j].time;
      StillOpen(p, i);
    }
    if id :| id in Open(p) {
      var i := OpenWait(p, id);
      assert forall j :: 0 <= j < k ==> p[j] == h[j];
      forall j | 0 <= j < |h| && h[j].End? && h[j].id == id ensures x < h[j].time {}
      assert WaitCovers(h, i, x);
    }
  }

  /** After the last event of a history time is counted in full when some wait covers it, and not at all otherwise. */
  lemma BusyGrows(h: seq<Event>, now: real, later: real)
    requires Legal(h) && h != [] && h[|h| - 1].time <= now <= later
    ensures Busy(h, later) == Busy(h, now) + if Covered(h, now) then later - now else 0.0
  {
    StretchCovered(h, |h|, now);
    assert h[..|h|] == h;
  }

  lemma {:induction false} Ordered(h: seq<Event>)
    requires Legal(h)
    ensures forall i, j :: 0 <= i < j < |h| ==> h[i].time <= h[j].time
  {
    if h != [] { Ordered(h[..|h| - 1]); }
  }

  lemma {:induction false} LegalPrefix(h: seq<Event>, k: nat)
    requires Legal(h) && k <= |h|
    ensures Legal(h[..k])
  {
    if k < |h| {
      LegalPrefix(h[..|h| - 1], k);
      assert h[..|h| - 1][..k] == h[..k];
    } else {
      assert h[..k] == h;
    }
  }

  /** A wait that has begun and of which no end has been seen is open. */
  lemma {:induction false} StillOpen(h: seq<Event>, i: nat)
    requires i < |h| && h[i].Begin?
    requires forall j :: 0 <= j < |h| && h[j].End? ==> h[j].id != h[i].id
    ensures h[i].id in Open(h)
  {
    var n := |h| - 1;
    if i < n { StillOpen(h[..n], i); }
  }

  /** An open wait has begun, and no end of it has been seen. */
  lemma {:induction false} OpenWait(h: seq<Event>, id: nat) returns (i: nat)
    requires Legal(h) && id in Open(h)
    ensures i < |h| && h[i].Begin? && h[i].id == id
    ensures forall j :: 0 <= j < |h| && h[j].End? ==> h[j].id != id
  {
    var n := |h| - 1;
    if id in Open(h[..n]) {
      i := OpenWait(h[..n], id);
    } else {
      i := n;
      EndedWereBegun(h[..n]);
    }
  }

  lemma {:induction false} EndedWereBegun(h: seq<Event>)
    requires Legal(h)
    ensures forall j :: 0 <= j < |h| && h[j].End? ==> Begun(h, h[j].id)
  {
    if h != [] {
      var n := |h| - 1;
      EndedWereBegun(h[..n]);
      OpenAreBegun(h[..n]);
      forall j | 0 <= j < |h| && h[j].End? ensures Begun(h, h[j].id) {
        var id := h[j].id;
        assert Begun(h[..n], id);
        var i :| 0 <= i < n && h[..n][i].Begin? && h[..n][i].id == id;
        assert h[i].Begin? && h[i].id == id;
      }
    }
  }
}
