/** Ring-buffer arithmetic common to the input and the output queue: a byte
    buffer whose length is a multiple of the entry size, a head (write) offset
    and a tail (read) offset, both entry-aligned. One entry slot is always
    kept free, so head == tail means empty and Next(head) == tail means full. */
module Ring {
  import opened Records

  predicate ValidSize(size: int)
  {
    size >= ENTRY_SIZE && size % ENTRY_SIZE == 0
  }

  /** `p` is the byte offset of an entry slot of a buffer of `size` bytes. */
  predicate Aligned(size: int, p: int)
  {
    0 <= p < size && p % ENTRY_SIZE == 0
  }

  lemma AlignedRoom(size: int, p: int)
    requires ValidSize(size) && Aligned(size, p)
    ensures p + ENTRY_SIZE <= size
  {
  }

  /** oqnext: the slot after `p`, wrapping from the end of the buffer to its start. */
  function Next(size: nat, p: nat): (q: nat)
    requires ValidSize(size) && Aligned(size, p)
    ensures Aligned(size, q)
  {
    AlignedRoom(size, p);
    if p + ENTRY_SIZE == size then 0 else p + ENTRY_SIZE
  }

  /** Number of entries stored between `tail` (inclusive) and `head` (exclusive). */
  function Count(size: nat, head: nat, tail: nat): (n: nat)
    requires ValidSize(size) && Aligned(size, head) && Aligned(size, tail)
    ensures n < size / ENTRY_SIZE
    ensures n == 0 <==> head == tail
  {
    (if tail <= head then head - tail else head + size - tail) / ENTRY_SIZE
  }

  /** The entry stored in the four bytes at offset `p`. */
  function EntryAt(buf: seq<Byte>, p: nat): Entry
    requires ValidSize(|buf|) && Aligned(|buf|, p)
  {
    AlignedRoom(|buf|, p);
    Entry(buf[p], buf[p + 1], buf[p + 2], buf[p + 3])
  }

  /** The four stores `p[0] = v1 ... p[3] = v4` of one entry at offset `p`. */
  function WriteEntry(buf: seq<Byte>, p: nat, e: Entry): (r: seq<Byte>)
    requires ValidSize(|buf|) && Aligned(|buf|, p)
    ensures |r| == |buf|
    ensures EntryAt(r, p) == e
    ensures forall q :: Aligned(|buf|, q) && q != p ==> EntryAt(r, q) == EntryAt(buf, q)
    ensures forall i :: 0 <= i < |buf| && !(p <= i < p + ENTRY_SIZE) ==> r[i] == buf[i]
  {
    AlignedRoom(|buf|, p);
    buf[p := e.tlo][p + 1 := e.thi][p + 2 := e.port][p + 3 := e.flag]
  }

  /** Advancing the tail by one slot drops one stored entry. */
  lemma CountAfterTail(size: nat, head: nat, tail: nat)
    requires ValidSize(size) && Aligned(size, head) && Aligned(size, tail)
    requires head != tail
    ensures Count(size, head, Next(size, tail)) == Count(size, head, tail) - 1
  {
  }

  /** The queue's contents, oldest entry first: the entry at the tail, then
      the contents after the tail advances, until the tail meets the head. */
  function Stored(buf: seq<Byte>, head: nat, tail: nat): (r: seq<Entry>)
    requires ValidSize(|buf|) && Aligned(|buf|, head) && Aligned(|buf|, tail)
    ensures |r| == Count(|buf|, head, tail) < |buf| / ENTRY_SIZE
    decreases Count(|buf|, head, tail)
  {
    if head == tail then []
    else
      CountAfterTail(|buf|, head, tail);
      [EntryAt(buf, tail)] + Stored(buf, head, Next(|buf|, tail))
  }

  /** Distinct slots have distinct successors. */
  lemma NextInjective(size: nat, p: nat, q: nat)
    requires ValidSize(size) && Aligned(size, p) && Aligned(size, q)
    requires Next(size, p) == Next(size, q)
    ensures p == q
  {
  }

  /** A push into a queue that is not full appends the written entry at the end. */
  lemma {:induction false} PushAppends(buf: seq<Byte>, head: nat, tail: nat, e: Entry)
    requires ValidSize(|buf|) && Aligned(|buf|, head) && Aligned(|buf|, tail)
    requires Next(|buf|, head) != tail
    ensures Stored(WriteEntry(buf, head, e), Next(|buf|, head), tail) == Stored(buf, head, tail) + [e]
    decreases Count(|buf|, head, tail)
  {
    var size := |buf|;
    var w := WriteEntry(buf, head, e);
    if head == tail {
      assert Stored(w, Next(size, head), tail) == [EntryAt(w, tail)] + Stored(w, Next(size, head), Next(size, tail));
    } else {
      CountAfterTail(size, head, tail);
      if Next(size, head) == Next(size, tail) {
        NextInjective(size, head, tail);
      }
      PushAppends(buf, head, Next(size, tail), e);
      assert Stored(w, Next(size, head), tail) == [EntryAt(w, tail)] + Stored(w, Next(size, head), Next(size, tail));
      assert Stored(buf, head, tail) == [EntryAt(buf, tail)] + Stored(buf, head, Next(size, tail));
    }
  }

  /** A pop from a non-empty queue yields the entry at the tail and removes it from the front. */
  lemma PopFront(buf: seq<Byte>, head: nat, tail: nat)
    requires ValidSize(|buf|) && Aligned(|buf|, head) && Aligned(|buf|, tail)
    requires head != tail
    ensures Stored(buf, head, tail) != []
    ensures Stored(buf, head, tail)[0] == EntryAt(buf, tail)
    ensures Stored(buf, head, Next(|buf|, tail)) == Stored(buf, head, tail)[1..]
  {
    assert Stored(buf, head, tail) == [EntryAt(buf, tail)] + Stored(buf, head, Next(|buf|, tail));
  }

  /** The queue is full exactly when it holds one entry fewer than it has slots. */
  lemma FullIff(size: nat, head: nat, tail: nat)
    requires ValidSize(size) && Aligned(size, head) && Aligned(size, tail)
    ensures Next(size, head) == tail <==> Count(size, head, tail) == size / ENTRY_SIZE - 1
  {
  }
}
