/** The input queue: one fixed 256-byte RAM page of 4-byte capture entries,
    written by the interrupt handlers at `iqhead` and read by the main loop at
    `iqtail`. Both indices are 8-bit, so advancing by 4 wraps within the page. */
module InputQueue {
  import opened Records
  import opened Ring

  /** Bytes in the page; an 8-bit index covers it exactly. */
  const IQ_SIZE: nat := 256

  /** Entries the page can hold before a capture brings the head onto the tail. */
  const IQ_READABLE: nat := IQ_SIZE / ENTRY_SIZE - 1

  /** `iqhead += 4` (and `iqtail += IQENTRYSZ`) with 8-bit wrap-around; in the
      handlers `st X+` carries into the page byte, which `ldi r27` then resets. */
  function Advance(i: Byte): (j: Byte)
    requires Aligned(IQ_SIZE, i)
    ensures Aligned(IQ_SIZE, j)
    ensures j == Next(IQ_SIZE, i)
  {
    (i + ENTRY_SIZE) % IQ_SIZE
  }

  class InQueue {
    const page: array<Byte>
    var head: Byte
    var tail: Byte

    ghost predicate Valid()
      reads this
    {
      page.Length == IQ_SIZE && Aligned(IQ_SIZE, head) && Aligned(IQ_SIZE, tail)
    }

    /** The captures not yet drained, oldest first. */
    ghost function Contents(): seq<Entry>
      reads this, page
      requires Valid()
    {
      Stored(page[..], head, tail)
    }

    /** The page as set up at start-up: `iqhead = 0`, `iqtail = 0`. */
    constructor ()
      ensures Valid() && fresh(page)
      ensures head == 0 && tail == 0 && Contents() == []
    {
      page := new Byte[IQ_SIZE];
      head, tail := 0, 0;
    }

    /** The store sequence of `_CAPTURE_ISR(capflag)`: the four bytes go to
        `iqhead .. iqhead + 3` and the head advances, with no check against the
        tail. Below 63 unread entries the capture is appended; the 64th unread
        capture brings the head onto the tail, so the queue reads as empty. */
    method Store(tlo: Byte, thi: Byte, port: Byte, flag: Byte)
      requires Valid()
      modifies this`head, page
      ensures Valid() && tail == old(tail)
      ensures head == Advance(old(head))
      ensures page[..] == WriteEntry(old(page[..]), old(head), Entry(tlo, thi, port, flag))
      ensures |old(Contents())| < IQ_READABLE ==> Contents() == old(Contents()) + [Entry(tlo, thi, port, flag)]
      ensures |old(Contents())| == IQ_READABLE ==> head == tail && Contents() == []
    {
      FullIff(IQ_SIZE, head, tail);
      ghost var before := page[..];
      page[head] := tlo;
      page[head + 1] := thi;
      page[head + 2] := port;
      page[head + 3] := flag;
      assert page[..] == WriteEntry(before, head, Entry(tlo, thi, port, flag));
      if Next(IQ_SIZE, head) != tail {
        PushAppends(before, head, tail, Entry(tlo, thi, port, flag));
      }
      head := Advance(head);
    }

    /** The main loop's read at `iqtail`: the oldest capture's four bytes, then
        `iqtail += IQENTRYSZ`. Called only when the queue is not empty. */
    method Take() returns (e: Entry)
      requires Valid() && head != tail
      modifies this`tail
      ensures Valid() && head == old(head)
      ensures tail == Advance(old(tail))
      ensures e == old(Contents())[0] && e == EntryAt(page[..], old(tail))
      ensures Contents() == old(Contents())[1..]
    {
      PopFront(page[..], head, tail);
      AlignedRoom(IQ_SIZE, tail);
      e := Entry(page[tail], page[tail + 1], page[tail + 2], page[tail + 3]);
      tail := Advance(tail);
    }
  }

  /** The head index after `n` captures starting from `h`. */
  function HeadAfter(h: Byte, n: nat): (r: Byte)
    requires Aligned(IQ_SIZE, h)
    ensures Aligned(IQ_SIZE, r)
    decreases n
  {
    if n == 0 then h else HeadAfter(Advance(h), n - 1)
  }

  lemma {:induction false} HeadAfterClosedForm(h: Byte, n: nat)
    requires Aligned(IQ_SIZE, h)
    ensures HeadAfter(h, n) == (h + ENTRY_SIZE * n) % IQ_SIZE
    decreases n
  {
    if n > 0 {
      HeadAfterClosedForm(Advance(h), n - 1);
    }
  }

  /** Adding whole pages to an offset does not change where it lands in the page. */
  lemma {:induction false} WholePages(a: nat, k: nat)
    ensures (a + IQ_SIZE * k) % IQ_SIZE == a % IQ_SIZE
    decreases k
  {
    if k > 0 {
      WholePages(a, k - 1);
      assert a + IQ_SIZE * k == (a + IQ_SIZE * (k - 1)) + IQ_SIZE;
    }
  }

  /** With nothing drained, `n` captures leave `n mod 64` entries readable:
      the 64th brings the head back onto the tail, the 65th starts over. */
  lemma UnreadAfterCaptures(tail: Byte, n: nat)
    requires Aligned(IQ_SIZE, tail)
    ensures Count(IQ_SIZE, HeadAfter(tail, n), tail) == n % (IQ_SIZE / ENTRY_SIZE)
  {
    HeadAfterClosedForm(tail, n);
    var m := n % (IQ_SIZE / ENTRY_SIZE);
    var h := HeadAfter(tail, n);
    assert tail + ENTRY_SIZE * n == tail + ENTRY_SIZE * m + IQ_SIZE * (n / (IQ_SIZE / ENTRY_SIZE));
    WholePages(tail + ENTRY_SIZE * m, n / (IQ_SIZE / ENTRY_SIZE));
    if tail + ENTRY_SIZE * m < IQ_SIZE {
      assert h == tail + ENTRY_SIZE * m;
    } else {
      assert h == tail + ENTRY_SIZE * m - IQ_SIZE;
    }
  }

  /** In particular 64 captures bring the head back to where it started. */
  lemma SixtyFourCapturesWrap(h: Byte)
    requires Aligned(IQ_SIZE, h)
    ensures HeadAfter(h, IQ_SIZE / ENTRY_SIZE) == h
  {
    UnreadAfterCaptures(h, IQ_SIZE / ENTRY_SIZE);
  }
}
