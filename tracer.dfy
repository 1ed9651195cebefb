/** The firmware's run-time state and its two kinds of atomic step: a capture
    interrupt (timer overflow or pin change) and one iteration of the main
    loop (drain, format, transmit). Interrupts are modelled as whole steps
    taken between loop iterations. */
module Tracer {
  import opened Records
  import opened Ring
  import opened Format
  import opened RateLimit
  import opened Subsequence
  import opened OutputQueue
  import opened InputQueue
  import opened OutputText

  /** CAPTURE_PORT: the four external interrupt pins of port D, or the pin-change interrupt of port B. */
  datatype CapturePort = PortD | PortB

  /** INTERRUPT_FLAG_CLEAR, kept in `eifrclr`: the pin handlers write it to the
      interrupt flag register and also store it as their capture flag. */
  function FlagClear(p: CapturePort): (f: Byte)
    ensures f != 0
  {
    match p
    case PortD => 0x0F
    case PortB => 0x01
  }

  /** The records `oqpush` appends for capture `e` at quota `quota` when the
      output queue holds `queued` and has `slots` entry slots: the classified
      record, unless the limiter drops it or the queue is full. */
  function Accepted(e: Entry, quota: Byte, queued: seq<Entry>, slots: nat): seq<Entry>
  {
    if Limit(e, quota).0.Some? && |queued| < slots - 1 then [Classify(e)] else []
  }

  /** How the loop's state follows from its history: `drained`, the captures
      taken from the input queue; `offered`, the records passed to `oqpush`;
      `dequeued`, the records popped for formatting; `text`, the characters
      sent followed by those still waiting in `obuf`. */
  ghost predicate Coherent(drained: seq<Entry>, offered: seq<Entry>, dequeued: seq<Entry>,
                           allow: Byte, remaining: Byte, text: seq<char>)
  {
    && Throttle(drained, MAX_TIMER_EVENTS).0 == offered
    && Throttle(drained, MAX_TIMER_EVENTS).1 == allow
    && remaining == RemainingAfter(ITEMS_PER_LINE, |dequeued|)
    && text == Render(dequeued, ITEMS_PER_LINE)
  }

  /** Draining capture `e` keeps the history coherent: the rate limiter's
      answer for it decides what is offered next and the new quota. */
  lemma OfferKeeps(drained: seq<Entry>, offered: seq<Entry>, dequeued: seq<Entry>,
                   allow: Byte, remaining: Byte, text: seq<char>, e: Entry)
    requires Coherent(drained, offered, dequeued, allow, remaining, text)
    ensures var step := Limit(e, allow);
            Coherent(drained + [e], offered + (if step.0.Some? then [step.0.value] else []),
                     dequeued, step.1, remaining, text)
  {
    ThrottleSnoc(drained, e, MAX_TIMER_EVENTS);
  }

  /** Formatting popped record `e` keeps the history coherent: its token and
      separator extend the text and the line counter moves on. */
  lemma FormatKeeps(drained: seq<Entry>, offered: seq<Entry>, dequeued: seq<Entry>,
                    allow: Byte, remaining: Byte, text: seq<char>, e: Entry)
    requires Coherent(drained, offered, dequeued, allow, remaining, text)
    ensures Coherent(drained, offered, dequeued + [e], allow, NextRemaining(remaining),
                     text + Token(e) + [Separator(remaining)])
  {
    RemainingAfterStep(ITEMS_PER_LINE, |dequeued|);
    RenderAppend(dequeued, [e], ITEMS_PER_LINE);
    assert Render([e], remaining) == Token(e) + [Separator(remaining)];
  }

  /** Edge, three ticks, edge, from the initial quota and line counter: the
      third tick is dropped and the rest come out as four tokens on one line. */
  lemma EdgeTicksEdge(eifrclr: Byte)
    requires eifrclr != 0
    ensures var captures := [Entry(0x01, 0x00, 0x01, eifrclr), Entry(0x02, 0x00, 0x01, 0),
                             Entry(0x03, 0x00, 0x01, 0), Entry(0x04, 0x00, 0x01, 0),
                             Entry(0x05, 0x00, 0x03, eifrclr)];
            Render(Throttle(captures, MAX_TIMER_EVENTS).0, ITEMS_PER_LINE)
            == "0001010" + " " + "0002011" + " " + "0003011" + " " + "0005030" + " "
  {
    var e1, t2, t3, t4, e5 := Entry(0x01, 0x00, 0x01, eifrclr), Entry(0x02, 0x00, 0x01, 0),
                              Entry(0x03, 0x00, 0x01, 0), Entry(0x04, 0x00, 0x01, 0),
                              Entry(0x05, 0x00, 0x03, eifrclr);
    ThirdTickDropped(e1, t2, t3, t4, e5);
    assert [Classify(e1), Classify(t2), Classify(t3), Classify(e5)]
           == [Entry(0x01, 0x00, 0x01, 0), Entry(0x02, 0x00, 0x01, 1), Entry(0x03, 0x00, 0x01, 1), Entry(0x05, 0x00, 0x03, 0)];
    RenderExample();
  }

  class Tracer {
    const iq: InQueue
    const oq: OutQueue
    const out: TextBuffer
    const eifrclr: Byte
    var allowTimerEvents: Byte
    /** Captures taken out of the input queue, in order. */
    ghost var drained: seq<Entry>

    ghost predicate Valid()
      reads this, iq, iq.page, oq, oq.data, out, out.obuf
    {
      && iq.Valid() && oq.Valid() && out.Valid() && iq.page != oq.data
      && eifrclr != 0
      && Coherent(drained, oq.offered, oq.dequeued, allowTimerEvents, out.remaining, out.sent + out.Pending())
    }

    /** The state on entry to the main loop. */
    constructor (port: CapturePort, ramSize: nat)
      requires ramSize >= RESERVED_RAM + ENTRY_SIZE
      ensures Valid()
      ensures fresh(iq) && fresh(iq.page) && fresh(oq) && fresh(oq.data) && fresh(out) && fresh(out.obuf)
      ensures eifrclr == FlagClear(port) && oq.data.Length == OqSize(ramSize)
      ensures iq.Contents() == [] && oq.Contents() == [] && out.Pending() == []
      ensures allowTimerEvents == MAX_TIMER_EVENTS && out.remaining == ITEMS_PER_LINE
      ensures out.sent == [] && drained == [] && oq.enqueued == []
    {
      iq := new InQueue();
      oq := new OutQueue(ramSize);
      out := new TextBuffer();
      eifrclr := FlagClear(port);
      allowTimerEvents := MAX_TIMER_EVENTS;
      drained := [];
    }

    /** TIMER1 overflow: `_CAPTURE_ISR(__zero_reg__)`, a capture with flag 0. */
    method TimerIsr(tlo: Byte, thi: Byte, pin: Byte)
      requires Valid()
      modifies iq`head, iq.page
      ensures Valid()
      ensures iq.head == Advance(old(iq.head)) && iq.tail == old(iq.tail)
      ensures iq.page[..] == WriteEntry(old(iq.page[..]), old(iq.head), Entry(tlo, thi, pin, 0))
      ensures |old(iq.Contents())| < IQ_READABLE ==> iq.Contents() == old(iq.Contents()) + [Entry(tlo, thi, pin, 0)]
      ensures |old(iq.Contents())| == IQ_READABLE ==> iq.Contents() == []
    {
      iq.Store(tlo, thi, pin, 0);
    }

    /** A pin interrupt (INT0..INT3 or PCINT0): `_CAPTURE_ISR(r6)`, a capture
        whose flag is `eifrclr` and therefore non-zero. */
    method CaptureIsr(tlo: Byte, thi: Byte, pin: Byte)
      requires Valid()
      modifies iq`head, iq.page
      ensures Valid()
      ensures iq.head == Advance(old(iq.head)) && iq.tail == old(iq.tail)
      ensures iq.page[..] == WriteEntry(old(iq.page[..]), old(iq.head), Entry(tlo, thi, pin, eifrclr))
      ensures |old(iq.Contents())| < IQ_READABLE ==> iq.Contents() == old(iq.Contents()) + [Entry(tlo, thi, pin, eifrclr)]
      ensures |old(iq.Contents())| == IQ_READABLE ==> iq.Contents() == []
    {
      iq.Store(tlo, thi, pin, eifrclr);
    }

    /** First part of the loop body: when the input queue is not empty, take
        its oldest capture and pass it through the rate limiter. */
    method Drain()
      requires Valid()
      modifies this, iq`tail, oq, oq.data
      ensures Valid()
      ensures iq.head == old(iq.head) && oq.dequeued == old(oq.dequeued)
      ensures old(iq.head == iq.tail) ==>
                iq.tail == old(iq.tail) && allowTimerEvents == old(allowTimerEvents)
                && oq.Contents() == old(oq.Contents()) && drained == old(drained)
      ensures old(iq.head != iq.tail) ==>
                && iq.tail == Advance(old(iq.tail)) && iq.Contents() == old(iq.Contents())[1..]
                && drained == old(drained) + [old(iq.Contents())[0]]
                && allowTimerEvents == Limit(old(iq.Contents())[0], old(allowTimerEvents)).1
                && oq.Contents() == old(oq.Contents()) + Accepted(old(iq.Contents())[0], old(allowTimerEvents), old(oq.Contents()), oq.data.Length / ENTRY_SIZE)
    {
      if iq.head != iq.tail {
        var e := iq.Take();
        Offer(e);
      }
    }

    /** The rest of the drain step for capture `e`: the timer-event flag is
        the inverse of the capture flag; an edge is always pushed and refills
        the quota, a tick is pushed only while quota remains and uses it up. */
    method Offer(e: Entry)
      requires Valid()
      modifies this, oq, oq.data
      ensures Valid()
      ensures oq.dequeued == old(oq.dequeued)
      ensures drained == old(drained) + [e]
      ensures allowTimerEvents == Limit(e, old(allowTimerEvents)).1
      ensures oq.Contents() == old(oq.Contents()) + Accepted(e, old(allowTimerEvents), old(oq.Contents()), oq.data.Length / ENTRY_SIZE)
    {
      OfferKeeps(drained, oq.offered, oq.dequeued, allowTimerEvents, out.remaining, out.sent + out.Pending(), e);
      var isTimerEvent: Byte := if e.flag == 0 then 1 else 0;
      if isTimerEvent != 0 {
        if allowTimerEvents != 0 {
          Enqueue(e.tlo, e.thi, e.port, isTimerEvent);
          allowTimerEvents := allowTimerEvents - 1;
        }
      } else {
        Enqueue(e.tlo, e.thi, e.port, isTimerEvent);
        allowTimerEvents := MAX_TIMER_EVENTS;
      }
      drained := drained + [e];
    }

    /** `oqpush(tlo, thi, pv, is_timer_event)` with its answer ignored. */
    method Enqueue(tlo: Byte, thi: Byte, pv: Byte, isTimerEvent: Byte)
      requires oq.Valid()
      modifies oq, oq.data
      ensures oq.Valid() && oq.dequeued == old(oq.dequeued)
      ensures oq.offered == old(oq.offered) + [Entry(tlo, thi, pv, isTimerEvent)]
      ensures oq.Contents() == old(oq.Contents())
                + (if |old(oq.Contents())| < oq.data.Length / ENTRY_SIZE - 1 then [Entry(tlo, thi, pv, isTimerEvent)] else [])
    {
      var _ := oq.Push(tlo, thi, pv, isTimerEvent);
    }

    /** Second part: when all of `obuf` has been sent and the output queue is
        not empty, pop one record and format it into `obuf`. */
    method FormatNext()
      requires Valid()
      modifies oq, out, out.obuf
      ensures Valid()
      ensures out.sent == old(out.sent) && oq.offered == old(oq.offered) && oq.enqueued == old(oq.enqueued)
      ensures !(old(out.Pending()) == [] && old(oq.Contents()) != []) ==>
                out.obuf[..] == old(out.obuf[..]) && out.obufIdx == old(out.obufIdx)
                && out.remaining == old(out.remaining)
                && oq.Contents() == old(oq.Contents()) && oq.dequeued == old(oq.dequeued)
      ensures old(out.Pending()) == [] && old(oq.Contents()) != [] ==>
                var e := old(oq.Contents())[0];
                && oq.Contents() == old(oq.Contents())[1..]
                && oq.dequeued == old(oq.dequeued) + [e]
                && out.Pending() == Token(e) + [Separator(old(out.remaining))]
                && out.remaining == NextRemaining(old(out.remaining))
    {
      if out.Drained() && !oq.Empty() {
        ghost var text := out.sent;
        assert out.sent + out.Pending() == text;
        FormatKeeps(drained, oq.offered, oq.dequeued, allowTimerEvents, out.remaining, text, oq.Contents()[0]);
        var r := oq.Pop();
        out.Write(r.value);
        assert out.sent + out.Pending() == text + Token(r.value) + [Separator(old(out.remaining))];
      }
    }

    /** Third part: when the USB debug endpoint is `ready` and `obuf` still
        holds text, send its next character. */
    method Send(ready: bool)
      requires Valid()
      modifies out
      ensures Valid()
      ensures |old(out.sent)| <= |out.sent| <= |old(out.sent)| + 1 && out.sent[..|old(out.sent)|] == old(out.sent)
      ensures !ready ==> out.sent == old(out.sent)
      ensures ready && old(out.Pending()) != [] ==> out.sent == old(out.sent) + [old(out.Pending())[0]]
      ensures old(out.Pending()) == [] ==> out.sent == old(out.sent)
    {
      out.Transmit(ready);
    }

    /** One iteration of `while (1)`; `ready` is what `usb_debug_ready()` reports. */
    method Step(ready: bool)
      requires Valid()
      modifies this, iq`tail, oq, oq.data, out, out.obuf
      ensures Valid()
      ensures iq.head == old(iq.head)
      ensures |old(out.sent)| <= |out.sent| <= |old(out.sent)| + 1 && out.sent[..|old(out.sent)|] == old(out.sent)
      ensures !ready ==> out.sent == old(out.sent)
    {
      Drain();
      FormatNext();
      Send(ready);
    }

    /** What has been sent is a prefix of the rendering of the records the
        output queue accepted, and those are, in order, a selection of what the
        rate limiter offered for the drained captures. */
    lemma Delivered()
      requires Valid()
      ensures out.sent <= Render(oq.enqueued, ITEMS_PER_LINE)
      ensures IsSubsequence(oq.enqueued, Throttle(drained, MAX_TIMER_EVENTS).0)
      ensures Edges(Throttle(drained, MAX_TIMER_EVENTS).0) == Edges(ClassifyAll(drained))
    {
      RenderAppend(oq.dequeued, oq.Contents(), ITEMS_PER_LINE);
      KeptIsSubsequence(oq.offered, oq.answers);
      EdgesAlwaysOffered(drained, MAX_TIMER_EVENTS);
    }
  }
}
