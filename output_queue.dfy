/** The output queue: `oqueue[OQSZ]` with the byte addresses `oqhead` and
    `oqtail`, here byte offsets into the array. */
module OutputQueue {
  import opened Records
  import opened Ring
  import opened Subsequence

  /** RAM kept back for the 256-byte input queue page plus variables and stack. */
  const RESERVED_RAM: nat := 512

  /** OQSZ: the RAM left over, rounded down to whole entries. */
  function OqSize(ramSize: nat): (n: nat)
    requires ramSize >= RESERVED_RAM + ENTRY_SIZE
    ensures ValidSize(n)
    ensures n <= ramSize - RESERVED_RAM < n + ENTRY_SIZE
  {
    ((ramSize - RESERVED_RAM) / ENTRY_SIZE) * ENTRY_SIZE
  }

  class OutQueue {
    const data: array<Byte>
    var head: nat
    var tail: nat
    /** Every record passed to `oqpush`, in order. */
    ghost var offered: seq<Entry>
    /** What `oqpush` answered for each of them. */
    ghost var answers: seq<bool>
    /** Every record `oqpush` has accepted, in order. */
    ghost var enqueued: seq<Entry>
    /** Every record `oqpop` has returned, in order. */
    ghost var dequeued: seq<Entry>

    /** The offsets are slot offsets; the accepted records are the offered
        ones the queue said yes to; and the queue is first-in first-out: what
        was accepted is what was returned followed by what is stored. */
    ghost predicate Valid()
      reads this, data
    {
      && ValidSize(data.Length) && Aligned(data.Length, head) && Aligned(data.Length, tail)
      && |answers| == |offered| && enqueued == Kept(offered, answers)
      && enqueued == dequeued + Stored(data[..], head, tail)
    }

    /** The records waiting to be formatted, oldest first. */
    ghost function Contents(): seq<Entry>
      reads this, data
      requires ValidSize(data.Length) && Aligned(data.Length, head) && Aligned(data.Length, tail)
    {
      Stored(data[..], head, tail)
    }

    /** The queue as set up at start-up: `oqhead = oqtail = oqueue`. */
    constructor (ramSize: nat)
      requires ramSize >= RESERVED_RAM + ENTRY_SIZE
      ensures Valid() && fresh(data)
      ensures data.Length == OqSize(ramSize) && head == 0 && tail == 0
      ensures Contents() == [] && offered == [] && enqueued == [] && dequeued == []
    {
      data := new Byte[OqSize(ramSize)];
      head, tail := 0, 0;
      offered, answers, enqueued, dequeued := [], [], [], [];
    }

    /** oqempty */
    function Empty(): (b: bool)
      reads this, data
      requires Valid()
      ensures b <==> Contents() == []
    {
      head == tail
    }

    /** The queue holds at most one record fewer than it has slots. */
    lemma Capacity()
      requires Valid()
      ensures |Contents()| <= data.Length / ENTRY_SIZE - 1
    {
    }

    /** First in, first out: what was returned is a prefix of what was
        accepted, and the rest of it is stored, in the same order. */
    lemma Fifo()
      requires Valid()
      ensures dequeued <= enqueued
      ensures enqueued[|dequeued|..] == Contents()
    {
    }

    /** oqpush: rejected, with nothing changed, when the slot after the head
        is the tail; otherwise the entry goes into the head slot and the head
        advances one slot. */
    method Push(v1: Byte, v2: Byte, v3: Byte, v4: Byte) returns (ok: bool)
      requires Valid()
      modifies this, data
      ensures Valid() && tail == old(tail) && dequeued == old(dequeued)
      ensures ok <==> Next(data.Length, old(head)) != old(tail)
      ensures ok <==> |old(Contents())| < data.Length / ENTRY_SIZE - 1
      ensures ok ==> head == Next(data.Length, old(head))
                     && data[..] == WriteEntry(old(data[..]), old(head), Entry(v1, v2, v3, v4))
      ensures !ok ==> head == old(head) && data[..] == old(data[..])
      ensures Contents() == if ok then old(Contents()) + [Entry(v1, v2, v3, v4)] else old(Contents())
      ensures offered == old(offered) + [Entry(v1, v2, v3, v4)] && answers == old(answers) + [ok]
      ensures enqueued == if ok then old(enqueued) + [Entry(v1, v2, v3, v4)] else old(enqueued)
    {
      var e := Entry(v1, v2, v3, v4);
      var p := Next(data.Length, head);
      ok := p != tail;
      FullIff(data.Length, head, tail);
      KeptSnoc(offered, answers, e, ok);
      offered, answers := offered + [e], answers + [ok];
      if ok {
        PushAppends(data[..], head, tail, e);
        WriteSlot(head, v1, v2, v3, v4);
        head := p;
        enqueued := enqueued + [e];
      }
    }

    /** The four stores `p[0] = v1 ... p[3] = v4` into the slot at offset `p`. */
    method WriteSlot(p: nat, v1: Byte, v2: Byte, v3: Byte, v4: Byte)
      requires ValidSize(data.Length) && Aligned(data.Length, p)
      modifies data
      ensures data[..] == WriteEntry(old(data[..]), p, Entry(v1, v2, v3, v4))
    {
      AlignedRoom(data.Length, p);
      data[p] := v1;
      data[p + 1] := v2;
      data[p + 2] := v3;
      data[p + 3] := v4;
    }

    /** oqpop: `None`, with nothing changed, when empty; otherwise the oldest
        entry, and the tail advances one slot. */
    method Pop() returns (r: Option<Entry>)
      requires Valid()
      modifies this
      ensures Valid() && head == old(head)
      ensures offered == old(offered) && answers == old(answers) && enqueued == old(enqueued)
      ensures r.None? <==> old(Contents()) == []
      ensures r.None? ==> tail == old(tail) && dequeued == old(dequeued)
      ensures r.Some? ==> tail == Next(data.Length, old(tail))
                          && r.value == old(Contents())[0]
                          && Contents() == old(Contents())[1..]
                          && dequeued == old(dequeued) + [r.value]
    {
      if Empty() {
        return None;
      }
      PopFront(data[..], head, tail);
      AlignedRoom(data.Length, tail);
      r := Some(Entry(data[tail], data[tail + 1], data[tail + 2], data[tail + 3]));
      tail := Next(data.Length, tail);
      dequeued := dequeued + [r.value];
    }
  }
}
