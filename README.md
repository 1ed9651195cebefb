# sctrace event pipeline, in Dafny

This project models the event pipeline of `sctrace.c`, a logic tracer for AVR
USB microcontrollers. The pipeline has four parts:

1. **Input queue.** Interrupt handlers capture the port and timer state into a
   256-byte capture page. The handlers are the timer-overflow handler and the
   pin handlers.
2. **Rate limiter.** The main loop drains the page through a limiter. Every
   edge is offered and refills a quota of two timer records. A timer tick is
   offered only while the quota lasts.
3. **Output queue.** Offered records go into the output ring buffer
   `oqueue`, which always keeps one slot free.
4. **Formatter and transmitter.** Records are formatted one at a time into
   `obuf` as seven hex digits and a separator. The separator is a space, or a
   newline after every tenth record. The text is sent one character per loop
   iteration, and only when the USB debug channel is ready.

Each record's text is its seven hex digits followed by the separator, so
edge, three ticks, edge comes out as `0001010 0002011 0003011 0005030 `
(`Tracer.EdgeTicksEdge`).

The whole pipeline is one sequential state machine. Each interrupt handler is
an atomic method, and one iteration of the main loop is `Tracer.Tracer.Step`.

Modules, by file:

- `records.dfy` (`Records`): `Byte`, the 4-byte `Entry`, and `Option`.
- `ring.dfy` (`Ring`): ring arithmetic shared by both queues. It covers
  `oqnext`, counting, and the stored contents (`Stored`) of a byte buffer
  between a tail and a head.
- `input_queue.dfy` (`InputQueue`): the capture page. Its class has the
  handlers' store sequence (`Store`) and the loop's read (`Take`).
- `output_queue.dfy` (`OutputQueue`): `oqueue` with `oqhead`/`oqtail`, and
  `oqempty`, `oqpush`, `oqpop`. The class also keeps four ghost logs:
  - `offered`: every record passed to `oqpush`;
  - `answers`: what `oqpush` answered for each;
  - `enqueued`: the accepted records;
  - `dequeued`: the popped records.
- `ratelimit.dfy` (`RateLimit`): the drain's timer-event policy, pure.
- `subsequence.dfy` (`Subsequence`): the subsequence order, and the records a
  list of yes/no answers keeps.
- `hex.dfy` (`HexDigit`): `hex`.
- `format.dfy` (`Format`): a record's token, the per-line countdown, the text
  `Render` of a record stream, and how a reader decodes a token (`Parse`).
- `text_buffer.dfy` (`OutputText`): `obuf`, `obuf_idx`, the static
  `remaining` counter, and the characters handed to `usb_debug_putchar`.
- `tracer.dfy` (`Tracer`): the whole firmware state, the two interrupt
  handlers, and the three parts of the loop body (drain, format, send).

`Tracer.Tracer.Valid` ties the run-time state to its history. It rests on
the pure predicate `Tracer.Coherent`:

1. The records offered to `oqpush` are exactly the rate limiter's output for
   the drained captures (`Throttle`), and `allow_timer_events` is its final
   quota.
2. `oqpush` accepted a selection of those, in order.
3. Every record accepted is either already popped or still in the queue,
   in FIFO order.
4. The characters sent, followed by the text still waiting in `obuf`, are
   the rendering of the popped records from the initial counter. The counter
   equals its value after that many records.

The constructor establishes this invariant, and `TimerIsr`, `CaptureIsr`, `Drain`, `Offer`, `FormatNext`, `Send` and `Step` require it and keep it. `Enqueue`, the `oqpush` call inside `Offer`, keeps only the queue's own invariant, `oq.Valid()`. Between that call and the end of `Offer`, the logs are one record ahead of the drained captures. `Tracer.Tracer.Delivered` draws the
end-to-end property from it.

## Model

| member | source | states |
|---|---|---|
| HexDigit.Hex | sctrace.c:78-81 | below ten the result is `'0' + v` and from ten to fifteen `'A' + (v - 10)`, so every nibble becomes an upper-case hex digit whose value is the nibble |
| HexDigit.HexOfValue | sctrace.c:78-81 | every upper-case hex digit is what `hex` returns for its value, so `hex` on nibbles is onto the digits |
| Ring.Next | sctrace.c:95-102 | `oqnext` of an entry-aligned offset is again an entry-aligned offset inside the buffer |
| Ring.NextInjective | sctrace.c:95-102 | two slots with the same successor are the same slot |
| Ring.Count | sctrace.c:118-121 | the number of stored entries is below the number of slots, and is zero exactly when head equals tail |
| Ring.WriteEntry | sctrace.c:110-113 | after the four stores the entry read back at `p` is the one written, and every other slot and every other byte is unchanged |
| Ring.Stored | sctrace.c:123-134 | the queue's contents hold exactly `Count` entries |
| Ring.PushAppends | sctrace.c:104-116 | writing at the head of a non-full queue and advancing the head appends the written entry at the back of the contents |
| Ring.PopFront | sctrace.c:123-134 | in a non-empty queue the entry at the tail is the first of the contents, and advancing the tail removes exactly that entry |
| Ring.FullIff | sctrace.c:104-109 | `oqnext(oqhead) == oqtail` holds exactly when the queue holds one entry fewer than it has slots |
| OutputQueue.OqSize | sctrace.c:86-89 | OQSZ is a non-zero multiple of the entry size, at most the RAM left after 512 reserved bytes and within one entry of it |
| OutputQueue.OutQueue.constructor | sctrace.c:91-93 | the queue starts empty with `oqhead == oqtail == oqueue` and empty logs |
| OutputQueue.OutQueue.Empty | sctrace.c:118-121 | `oqempty` is true exactly when the queue holds no record |
| OutputQueue.OutQueue.Push | sctrace.c:104-116 | rejected exactly when the slot after the head is the tail, i.e. when the queue holds OQSZ/4 - 1 records, and then nothing changes; otherwise the four bytes go to the old head, the head advances one slot, and the record is appended to the contents; either way the record and the answer are logged |
| OutputQueue.OutQueue.WriteSlot | sctrace.c:110-113 | the four byte stores at an aligned slot leave the buffer equal to the old contents with that slot's four bytes set to the record, in order, and every other byte unchanged |
| OutputQueue.OutQueue.Pop | sctrace.c:123-134 | `None` exactly when the queue is empty, with nothing changed; otherwise the first record of the contents, removed from the front, the tail advanced one slot, and the record logged as popped |
| OutputQueue.OutQueue.Capacity | sctrace.c:104-116 | the queue never holds more than OQSZ/4 - 1 records |
| OutputQueue.OutQueue.Fifo | sctrace.c:104-134 | the popped records are a prefix of the accepted ones and the rest of the accepted records are stored, in order |
| InputQueue.Advance | sctrace.c:261-272 | `iqhead += 4` (and `iqtail += IQENTRYSZ`) with 8-bit wrap is the ring successor of the slot in the 256-byte page |
| InputQueue.InQueue.constructor | sctrace.c:161-164 | the page starts empty with `iqhead == iqtail == 0` |
| InputQueue.InQueue.Store | sctrace.c:261-272 | the capture's four bytes go to `iqhead .. iqhead + 3` and the head always advances one slot; below 63 unread entries the capture is appended, and the 64th brings the head onto the tail and the queue reads as empty |
| InputQueue.InQueue.Take | sctrace.c:204-209 | the loop reads the oldest capture, stored at the tail, and the tail advances one slot, dropping it from the front |
| InputQueue.HeadAfterClosedForm | sctrace.c:261-272 | after `n` captures the head is `(h + 4n) mod 256` |
| InputQueue.UnreadAfterCaptures | sctrace.c:261-272 | with nothing drained, `n` captures leave `n mod 64` entries readable |
| InputQueue.SixtyFourCapturesWrap | sctrace.c:261-272 | 64 captures bring the head back to where it started |
| RateLimit.Classify | sctrace.c:205-208 | the output record keeps the timestamp and the port, and its flag `!capture flag` is 1 exactly for timer captures |
| RateLimit.Limit | sctrace.c:212-220 | an edge is always offered, whatever is offered is the capture's classified record, and a quota of at most 2 stays at most 2; that an edge refills the quota and each offered tick uses one unit, for every input, is proved by QuotaExact, TickOfferedIff and EdgeRefills |
| RateLimit.Throttle | sctrace.c:204-220 | the limiter folded over the drained captures from a given quota, giving the offered records and the quota left; its own contract says only that it offers no more records than there were captures, and its policy is stated by the lemmas in the rows that follow |
| RateLimit.QuotaExact | sctrace.c:212-220 | from the initial quota, the run of ticks at the end of the offered stream plus the quota left is exactly 2, for every capture stream: an edge refills the quota to 2, each offered tick uses one unit, a dropped tick changes nothing |
| RateLimit.TickOfferedIff | sctrace.c:212-216 | after any capture stream, a further timer capture is offered (as its classified record, appended) if and only if fewer than 2 ticks have been offered since the last edge |
| RateLimit.EdgeRefills | sctrace.c:217-220 | after any capture stream, a further edge capture is appended as its classified record and leaves the quota at 2 |
| RateLimit.EdgesAlwaysOffered | sctrace.c:217-220 | the edges of the offered stream are all the drained edges, in order |
| RateLimit.OfferedIsSubsequence | sctrace.c:212-220 | the offered records are the classified captures with some left out, in the same order |
| RateLimit.QuotaCoversTrailingTicks | sctrace.c:200-220 | the run of ticks at the end of the offered stream plus the remaining quota is at most 2 |
| RateLimit.TickRunsBounded | sctrace.c:200-220 | no run of consecutive ticks in the offered stream is longer than 2 |
| RateLimit.FourTicks | sctrace.c:200-220 | from the initial quota, four timer captures yield exactly the first two, and the quota ends at 0 |
| RateLimit.ThirdTickDropped | sctrace.c:200-220 | edge, three ticks, edge: the third tick is dropped and the second edge refills the quota |
| RateLimit.EdgeRefillsQuota | sctrace.c:212-220 | after two ticks use the quota, an edge lets the next two ticks through and drops the third |
| Subsequence.KeptIsSubsequence | sctrace.c:104-116 | the records `oqpush` accepted are a subsequence of those it was offered |
| Format.Token | sctrace.c:228-234 | a token is seven upper-case hex digits, the last one `0` or `1` |
| Format.ParseToken | sctrace.c:228-234 | decoding a record's token gives back its timer low and high bytes and its port exactly, and the low bit of its flag |
| Format.TokenOfParse | sctrace.c:228-234 | every text that decodes is the token of the record it decodes to |
| Format.TokenExample | sctrace.c:228-234 | tlo 0x34, thi 0x12, port 0xAA gives `1234AA0` as an edge and `1234AA1` as a tick |
| Format.Countdown | sctrace.c:237 | `--remaining` on a `uint8_t`: one less, and 0 wraps to 255 |
| Format.Separator | sctrace.c:237-241 | the separator is a space or a newline, and a newline exactly when the counter held 1 before the decrement; a counter of 0 wraps to 255 and gives a space |
| Format.NextRemaining | sctrace.c:237-242 | the line counter stays between 1 and 10 |
| Format.Render | sctrace.c:227-244 | every formatted record takes exactly eight characters of output |
| Format.RemainingAfterStep | sctrace.c:237-242 | one more record moves the counter one more step |
| Format.RemainingAfterAdd | sctrace.c:237-242 | the counter after `a` records and then `b` more is the counter after `a + b` records |
| Format.RemainingPhase | sctrace.c:235-242 | from a counter in 1..10, the counter after `n` records is fixed by the position in the line, modulo 10 |
| Format.RenderAppend | sctrace.c:227-244 | the text of two streams in a row is the first's text followed by the second's, the second continuing from the counter the first left |
| Format.RenderAt | sctrace.c:227-242 | record `i`'s token sits at offset `8i` of the text and its separator at `8i + 7` |
| Format.LineBreaks | sctrace.c:235-242 | from the initial counter, records 10, 20, ... are followed by a newline and all others by a space |
| Format.TenPerLine | sctrace.c:235-242 | ten records make one line, nine spaces then a newline, and the counter is back at 10, so the 11th record starts a new line |
| Format.TwoRecords | sctrace.c:227-242 | two records are rendered as their tokens, each with the separator its counter selects |
| Format.FourTokens | sctrace.c:235-242 | the first four records of a line are each followed by a space |
| Format.ExampleTokens | sctrace.c:228-234 | the tokens of four concrete records |
| Format.RenderExample | sctrace.c:227-244 | the concrete text for edge 0x0001, ticks 0x0002 and 0x0003, edge 0x0005 |
| Format.TextFrom | sctrace.c:248-250 | the text the transmitter still has to send starting at the cursor runs up to the first NUL, or to the end of the buffer, and holds no NUL |
| Format.TextUpTo | sctrace.c:243-244 | a NUL-free run ended by a NUL is exactly the text from its start |
| OutputText.TextBuffer.constructor | sctrace.c:194-197 | `obuf[0]` holds a NUL, the cursor is 0, the counter 10, nothing is pending and nothing has been sent |
| OutputText.TextBuffer.Drained | sctrace.c:224 | `!obuf[obuf_idx]` holds exactly when no formatted text is pending |
| OutputText.TextBuffer.PutToken | sctrace.c:227-234 | the seven `hex` stores put the record's token at `obuf[0..7]` and leave the rest of the buffer alone |
| OutputText.TextBuffer.Write | sctrace.c:227-244 | `obuf[0..9]` becomes the token, the separator `--remaining` selects, and a NUL at index 8; the counter moves on, resetting to 10 after a newline; the cursor goes back to 0; nothing is sent |
| OutputText.TextBuffer.Transmit | sctrace.c:247-250 | one character is sent and the cursor advances exactly when the cursor is not on a NUL and the channel is ready; otherwise nothing moves; sent text followed by pending text never changes, and the cursor never passes the NUL at index 8 |
| Tracer.FlagClear | sctrace.c:38-48 | `INTERRUPT_FLAG_CLEAR`, the pin handlers' capture flag, is non-zero for both capture ports |
| Tracer.OfferKeeps | sctrace.c:204-220 | draining a capture keeps the history coherent: what the limiter offers extends the offered log and its quota becomes the new `allow_timer_events` |
| Tracer.FormatKeeps | sctrace.c:224-245 | formatting a popped record keeps the history coherent: its token and separator extend the text and the counter moves on |
| Tracer.EdgeTicksEdge | sctrace.c:200-245 | edge, three ticks, edge from reset comes out as `0001010 0002011 0003011 0005030 `, with the third tick dropped |
| Tracer.Tracer.constructor | sctrace.c:161-201 | both queues empty, `eifrclr` set for the capture port, quota 2, counter 10, nothing pending or sent |
| Tracer.Tracer.TimerIsr | sctrace.c:261-278 | the timer capture is stored with flag 0 and `iqhead` advances, keeping the invariant |
| Tracer.Tracer.CaptureIsr | sctrace.c:261-279 | a pin capture is stored with flag `eifrclr`, which is non-zero, and `iqhead` advances, keeping the invariant |
| Tracer.Tracer.Drain | sctrace.c:204-221 | with the input queue empty nothing changes; otherwise its oldest capture is taken, the tail advances, the quota follows the limiter, and the output queue gains the capture's classified record exactly when the limiter offers it and the queue is not full, and nothing otherwise |
| Tracer.Tracer.Offer | sctrace.c:208-220 | the source's two branches: the quota becomes the limiter's, whether or not `oqpush` succeeded, and the output queue gains the classified record exactly when the limiter offers it and the queue is not full, and nothing otherwise |
| Tracer.Tracer.Enqueue | sctrace.c:214-218 | `oqpush` with its answer ignored: the record is logged as offered and appended exactly when the queue is not full |
| Tracer.Tracer.FormatNext | sctrace.c:224-245 | when no text is pending and the output queue is not empty, the oldest record is popped and its token and separator become the pending text; otherwise `obuf`, the cursor, the counter and the queue are unchanged; nothing is sent |
| Tracer.Tracer.Send | sctrace.c:247-250 | when the channel is ready and text is pending, exactly the first pending character is sent; when the channel is not ready or nothing is pending, nothing is sent; what was sent stays a prefix |
| Tracer.Tracer.Step | sctrace.c:202-255 | one loop iteration keeps the invariant and sends at most one character, none when the channel is not ready |
| Tracer.Tracer.Delivered | sctrace.c:202-250 | everything sent is a prefix of the rendering of the records the output queue accepted; those are in order a selection of what the limiter offered for the drained captures, which includes every drained edge |

## Left out

- USB transport: `usb_init`, `usb_configured`, `usb_debug_task` and the
  hardware behind `usb_debug_ready` are outside this model. Readiness is the
  `ready` parameter of `Step`, and `usb_debug_putchar` appends to
  `TextBuffer.sent`. usb_debug_only.h is not part of this model.
- The start-up banner `print("sctrace v1.01\n")`: an external flash-string
  helper. `sent` starts after it.
- Hardware bring-up: clock prescaler, port direction and pull-ups, interrupt
  enables, timer mode, the reset pulse, delays. None of it has any logic.
- Register reads in the handlers: the timer bytes and the port snapshot are
  parameters of `TimerIsr` and `CaptureIsr`. Their `out eifr, r6` write to
  the interrupt flag register is also not modelled.
- Preemption and timing: each handler is an atomic step taken between loop
  steps. A capture that arrives in the middle of a drain is not modelled.
  Neither are cycle counts or the register pinning of `iqhead`, `iqpage` and
  `eifrclr`.
- `OLD_CAPTURE_ISR`: dead code, used by no handler.
- `prev_pv`: written but never read.
- OQSZ depends on the target's RAM size, which the source takes from the
  device headers. The model takes it as a constructor parameter, and
  `OqSize` computes OQSZ from it.
- HexDigit.Hex: only nibbles ever reach `hex`. For larger values the model
  takes the sum modulo 256 and proves nothing about the result.
- Tracer.Tracer.Step: its contract states the invariant and the one-byte
  bound only. The exact effect of each part is stated by Drain, FormatNext
  and Send, which Step calls in that order.
