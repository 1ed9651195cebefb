/** The drain's policy between the two queues: every edge capture is offered
    to the output queue and refills the timer-event quota; a timer capture is
    offered only while the quota is non-zero, and uses one unit of it. */
module RateLimit {
  import opened Records
  import opened Subsequence

  /** `max_timer_events`: timer records offered after an edge before ticks are dropped. */
  const MAX_TIMER_EVENTS: Byte := 2

  /** `is_timer_event = !flag`: a zero capture flag marks a timer tick. */
  predicate IsTimerCapture(e: Entry)
  {
    e.flag == 0
  }

  /** An output-queue record of a timer tick (flag 1); edges carry flag 0. */
  predicate IsTick(o: Entry)
  {
    o.flag == 1
  }

  /** The output-queue record for a capture: the same timestamp and port, with
      the capture flag replaced by `is_timer_event`. */
  function Classify(e: Entry): (o: Entry)
    ensures o.tlo == e.tlo && o.thi == e.thi && o.port == e.port
    ensures o.flag == 0 || o.flag == 1
    ensures IsTick(o) <==> IsTimerCapture(e)
  {
    Entry(e.tlo, e.thi, e.port, if e.flag == 0 then 1 else 0)
  }

  /** One drained capture: the record offered to `oqpush` (if any) and the new
      quota. The quota update does not depend on whether the push succeeds. */
  function Limit(e: Entry, quota: Byte): (r: (Option<Entry>, Byte))
    ensures r.0.Some? ==> r.0.value == Classify(e)
    ensures !IsTimerCapture(e) ==> r.0.Some?
    ensures quota <= MAX_TIMER_EVENTS ==> r.1 <= MAX_TIMER_EVENTS
  {
    if IsTimerCapture(e) then
      if quota != 0 then (Some(Classify(e)), quota - 1) else (None, quota)
    else
      (Some(Classify(e)), MAX_TIMER_EVENTS)
  }

  /** The records offered for a sequence of drained captures, and the final quota. */
  function Throttle(es: seq<Entry>, quota: Byte): (r: (seq<Entry>, Byte))
    ensures |r.0| <= |es|
    decreases |es|
  {
    if es == [] then ([], quota)
    else
      var prev := Throttle(es[..|es| - 1], quota);
      var step := Limit(es[|es| - 1], prev.1);
      (prev.0 + (if step.0.Some? then [step.0.value] else []), step.1)
  }

  lemma ThrottleSnoc(es: seq<Entry>, e: Entry, quota: Byte)
    ensures Throttle(es + [e], quota)
            == var prev := Throttle(es, quota);
               var step := Limit(e, prev.1);
               (prev.0 + (if step.0.Some? then [step.0.value] else []), step.1)
  {
    assert (es + [e])[..|es|] == es;
  }

  function ClassifyAll(es: seq<Entry>): (os: seq<Entry>)
    ensures |os| == |es|
    ensures forall i :: 0 <= i < |es| ==> os[i] == Classify(es[i])
  {
    seq(|es|, i requires 0 <= i < |es| => Classify(es[i]))
  }

  /** The edge records of an output stream, in order. */
  function Edges(s: seq<Entry>): seq<Entry>
    decreases |s|
  {
    if s == [] then []
    else Edges(s[..|s| - 1]) + (if IsTick(s[|s| - 1]) then [] else [s[|s| - 1]])
  }

  lemma EdgesSnoc(s: seq<Entry>, x: Entry)
    ensures Edges(s + [x]) == Edges(s) + (if IsTick(x) then [] else [x])
  {
    assert (s + [x])[..|s|] == s;
  }

  /** Edges are never throttled: the offered stream holds every edge, in order. */
  lemma {:induction false} EdgesAlwaysOffered(es: seq<Entry>, quota: Byte)
    ensures Edges(Throttle(es, quota).0) == Edges(ClassifyAll(es))
    decreases |es|
  {
    if es != [] {
      var init, e := es[..|es| - 1], es[|es| - 1];
      EdgesAlwaysOffered(init, quota);
      var prev := Throttle(init, quota);
      var step := Limit(e, prev.1);
      var o := Throttle(es, quota).0;
      assert ClassifyAll(es) == ClassifyAll(init) + [Classify(e)];
      EdgesSnoc(ClassifyAll(init), Classify(e));
      if step.0.Some? {
        assert o == prev.0 + [Classify(e)];
        EdgesSnoc(prev.0, Classify(e));
      } else {
        assert o == prev.0;
      }
    }
  }

  /** Nothing is reordered or invented: the offered records are the classified captures with some ticks left out. */
  lemma {:induction false} OfferedIsSubsequence(es: seq<Entry>, quota: Byte)
    ensures IsSubsequence(Throttle(es, quota).0, ClassifyAll(es))
    decreases |es|
  {
    if es != [] {
      var init, e := es[..|es| - 1], es[|es| - 1];
      OfferedIsSubsequence(init, quota);
      var prev := Throttle(init, quota);
      var step := Limit(e, prev.1);
      var o := Throttle(es, quota).0;
      assert ClassifyAll(es) == ClassifyAll(init) + [Classify(e)];
      if step.0.Some? {
        assert o == prev.0 + [Classify(e)];
        SubsequenceKeep(prev.0, ClassifyAll(init), Classify(e));
      } else {
        assert o == prev.0;
        SubsequenceSkip(prev.0, ClassifyAll(init), Classify(e));
      }
    }
  }

  /** Number of tick records at the end of an output stream. */
  function TrailingTicks(s: seq<Entry>): (n: nat)
    ensures n <= |s|
    decreases |s|
  {
    if s == [] || !IsTick(s[|s| - 1]) then 0 else 1 + TrailingTicks(s[..|s| - 1])
  }

  predicate AllTicks(s: seq<Entry>)
  {
    forall k :: 0 <= k < |s| ==> IsTick(s[k])
  }

  lemma {:induction false} TrailingCovers(s: seq<Entry>, i: nat)
    requires i <= |s| && AllTicks(s[i..])
    ensures |s| - i <= TrailingTicks(s)
    decreases |s| - i
  {
    if i < |s| {
      assert s[..|s| - 1][i..] == s[i..|s| - 1];
      TrailingCovers(s[..|s| - 1], i);
    }
  }

  /** The quota and the run of ticks just offered never add up to more than the maximum. */
  lemma {:induction false} QuotaCoversTrailingTicks(es: seq<Entry>, quota: Byte)
    requires quota <= MAX_TIMER_EVENTS
    ensures TrailingTicks(Throttle(es, quota).0) + Throttle(es, quota).1 <= MAX_TIMER_EVENTS
    decreases |es|
  {
    if es != [] {
      var init, e := es[..|es| - 1], es[|es| - 1];
      QuotaCoversTrailingTicks(init, quota);
      var prev := Throttle(init, quota);
      var step := Limit(e, prev.1);
      var o := Throttle(es, quota).0;
      if step.0.Some? {
        assert o == prev.0 + [Classify(e)];
        assert o[..|o| - 1] == prev.0;
      } else {
        assert o == prev.0;
      }
    }
  }

  /** From the initial quota, the quota left is exactly what the run of ticks
      just offered has not used: an edge refills it, each offered tick uses
      one unit, and a dropped tick changes nothing. */
  lemma {:induction false} QuotaExact(es: seq<Entry>)
    ensures TrailingTicks(Throttle(es, MAX_TIMER_EVENTS).0) + Throttle(es, MAX_TIMER_EVENTS).1 == MAX_TIMER_EVENTS
    decreases |es|
  {
    if es != [] {
      var init, e := es[..|es| - 1], es[|es| - 1];
      QuotaExact(init);
      var prev := Throttle(init, MAX_TIMER_EVENTS);
      var step := Limit(e, prev.1);
      var o := Throttle(es, MAX_TIMER_EVENTS).0;
      if step.0.Some? {
        assert o == prev.0 + [Classify(e)];
        assert o[..|o| - 1] == prev.0;
      } else {
        assert o == prev.0;
      }
    }
  }

  /** A timer capture is offered exactly when the run of ticks offered since
      the last edge is shorter than the quota. */
  lemma TickOfferedIff(es: seq<Entry>, t: Entry)
    requires IsTimerCapture(t)
    ensures Throttle(es + [t], MAX_TIMER_EVENTS).0 == Throttle(es, MAX_TIMER_EVENTS).0 + [Classify(t)]
            <==> TrailingTicks(Throttle(es, MAX_TIMER_EVENTS).0) < MAX_TIMER_EVENTS as int
  {
    QuotaExact(es);
    ThrottleSnoc(es, t, MAX_TIMER_EVENTS);
  }

  /** An edge capture is always offered and refills the quota, whatever came before. */
  lemma EdgeRefills(es: seq<Entry>, e: Entry)
    requires !IsTimerCapture(e)
    ensures Throttle(es + [e], MAX_TIMER_EVENTS).0 == Throttle(es, MAX_TIMER_EVENTS).0 + [Classify(e)]
    ensures Throttle(es + [e], MAX_TIMER_EVENTS).1 == MAX_TIMER_EVENTS
  {
    ThrottleSnoc(es, e, MAX_TIMER_EVENTS);
  }

  /** Between two edges at most MAX_TIMER_EVENTS timer records are offered:
      every run of consecutive ticks in the offered stream is that short. */
  lemma {:induction false} TickRunsBounded(es: seq<Entry>, quota: Byte)
    requires quota <= MAX_TIMER_EVENTS
    ensures var o := Throttle(es, quota).0;
            forall i, j :: 0 <= i <= j <= |o| && AllTicks(o[i..j]) ==> j - i <= MAX_TIMER_EVENTS as int
    decreases |es|
  {
    if es != [] {
      var init, e := es[..|es| - 1], es[|es| - 1];
      TickRunsBounded(init, quota);
      QuotaCoversTrailingTicks(init, quota);
      var prev := Throttle(init, quota);
      var step := Limit(e, prev.1);
      var o := Throttle(es, quota).0;
      forall i, j | 0 <= i <= j <= |o| && AllTicks(o[i..j])
        ensures j - i <= MAX_TIMER_EVENTS as int
      {
        assert o[..|prev.0|] == prev.0;
        if j <= |prev.0| {
          assert o[i..j] == prev.0[i..j];
        } else if i < j {
          assert o == prev.0 + [Classify(e)];
          assert IsTick(o[i..j][j - 1 - i]);
          forall k | 0 <= k < |prev.0[i..]| ensures IsTick(prev.0[i..][k]) {
            assert prev.0[i..][k] == o[i..j][k];
          }
          TrailingCovers(prev.0, i);
        }
      }
    }
  }

  /** From the initial quota, four consecutive timer captures yield exactly two offered records. */
  lemma FourTicks(t1: Entry, t2: Entry, t3: Entry, t4: Entry)
    requires IsTimerCapture(t1) && IsTimerCapture(t2) && IsTimerCapture(t3) && IsTimerCapture(t4)
    ensures Throttle([t1, t2, t3, t4], MAX_TIMER_EVENTS).0 == [Classify(t1), Classify(t2)]
    ensures Throttle([t1, t2, t3, t4], MAX_TIMER_EVENTS).1 == 0
  {
    ThrottleSnoc([], t1, MAX_TIMER_EVENTS);
    assert [] + [t1] == [t1];
    assert Throttle([t1], MAX_TIMER_EVENTS).0 == [Classify(t1)];
    assert Throttle([t1], MAX_TIMER_EVENTS).1 == 1;
    ThrottleSnoc([t1], t2, MAX_TIMER_EVENTS);
    assert [t1] + [t2] == [t1, t2];
    ThrottleSnoc([t1, t2], t3, MAX_TIMER_EVENTS);
    assert [t1, t2] + [t3] == [t1, t2, t3];
    ThrottleSnoc([t1, t2, t3], t4, MAX_TIMER_EVENTS);
    assert [t1, t2, t3] + [t4] == [t1, t2, t3, t4];
  }

  /** Edge, three ticks, edge: the quota admits two ticks, drops the third, and the closing edge is offered. */
  lemma ThirdTickDropped(e1: Entry, t2: Entry, t3: Entry, t4: Entry, e5: Entry)
    requires !IsTimerCapture(e1) && !IsTimerCapture(e5)
    requires IsTimerCapture(t2) && IsTimerCapture(t3) && IsTimerCapture(t4)
    ensures Throttle([e1, t2, t3, t4, e5], MAX_TIMER_EVENTS).0
            == [Classify(e1), Classify(t2), Classify(t3), Classify(e5)]
    ensures Throttle([e1, t2, t3, t4, e5], MAX_TIMER_EVENTS).1 == MAX_TIMER_EVENTS
  {
    ThrottleSnoc([], e1, MAX_TIMER_EVENTS);
    assert [] + [e1] == [e1];
    ThrottleSnoc([e1], t2, MAX_TIMER_EVENTS);
    assert [e1] + [t2] == [e1, t2];
    ThrottleSnoc([e1, t2], t3, MAX_TIMER_EVENTS);
    assert [e1, t2] + [t3] == [e1, t2, t3];
    ThrottleSnoc([e1, t2, t3], t4, MAX_TIMER_EVENTS);
    assert [e1, t2, t3] + [t4] == [e1, t2, t3, t4];
    ThrottleSnoc([e1, t2, t3, t4], e5, MAX_TIMER_EVENTS);
    assert [e1, t2, t3, t4] + [e5] == [e1, t2, t3, t4, e5];
  }

  /** An edge refills the quota: tick, tick, edge, tick, tick, tick offers all but the last tick. */
  lemma EdgeRefillsQuota(t1: Entry, t2: Entry, e: Entry, t3: Entry, t4: Entry, t5: Entry)
    requires IsTimerCapture(t1) && IsTimerCapture(t2) && !IsTimerCapture(e)
    requires IsTimerCapture(t3) && IsTimerCapture(t4) && IsTimerCapture(t5)
    ensures Throttle([t1, t2, e, t3, t4, t5], MAX_TIMER_EVENTS).0
            == [Classify(t1), Classify(t2), Classify(e), Classify(t3), Classify(t4)]
    ensures Throttle([t1, t2, e, t3, t4, t5], MAX_TIMER_EVENTS).1 == 0
  {
    ThrottleSnoc([], t1, MAX_TIMER_EVENTS);
    assert [] + [t1] == [t1];
    ThrottleSnoc([t1], t2, MAX_TIMER_EVENTS);
    assert [t1] + [t2] == [t1, t2];
    assert Throttle([t1, t2], MAX_TIMER_EVENTS).0 == [Classify(t1), Classify(t2)];
    assert Throttle([t1, t2], MAX_TIMER_EVENTS).1 == 0;
    ThrottleSnoc([t1, t2], e, MAX_TIMER_EVENTS);
    assert [t1, t2] + [e] == [t1, t2, e];
    ThrottleSnoc([t1, t2, e], t3, MAX_TIMER_EVENTS);
    assert [t1, t2, e] + [t3] == [t1, t2, e, t3];
    ThrottleSnoc([t1, t2, e, t3], t4, MAX_TIMER_EVENTS);
    assert [t1, t2, e, t3] + [t4] == [t1, t2, e, t3, t4];
    ThrottleSnoc([t1, t2, e, t3, t4], t5, MAX_TIMER_EVENTS);
    assert [t1, t2, e, t3, t4] + [t5] == [t1, t2, e, t3, t4, t5];
  }
}
