/** The formatted-output buffer of the main loop: `static char obuf[16]`, the
    send cursor `obuf_idx`, the per-line countdown `static uint8_t remaining`,
    and the characters handed to the USB debug channel so far. */
module OutputText {
  import opened Records
  import opened HexDigit
  import opened Format

  /** `static char obuf[16]`. */
  const OBUF_SIZE: nat := 16

  /** Index of the NUL that ends a formatted record in `obuf`. */
  const TEXT_END: nat := 8

  class TextBuffer {
    const obuf: array<char>
    var obufIdx: nat
    var remaining: Byte
    /** Everything `usb_debug_putchar` has been given so far. */
    var sent: seq<char>

    /** The cursor stays within the record text, which a NUL always ends. */
    ghost predicate Valid()
      reads this, obuf
    {
      obuf.Length == OBUF_SIZE && obufIdx <= TEXT_END && obuf[TEXT_END] == NUL
    }

    /** The text in `obuf` not yet sent. */
    ghost function Pending(): seq<char>
      reads this, obuf
      requires Valid()
    {
      TextFrom(obuf[..], obufIdx)
    }

    /** `obuf[obuf_idx] = 0` before the loop, and the countdown's initial value. */
    constructor ()
      ensures Valid() && fresh(obuf)
      ensures obufIdx == 0 && remaining == ITEMS_PER_LINE && sent == [] && Pending() == []
    {
      obuf := new char[OBUF_SIZE](_ => NUL);
      obufIdx := 0;
      remaining := ITEMS_PER_LINE;
      sent := [];
    }

    /** `!obuf[obuf_idx]`: everything formatted has been sent. */
    function Drained(): (b: bool)
      reads this, obuf
      requires Valid()
      ensures b <==> Pending() == []
    {
      obuf[obufIdx] == NUL
    }

    /** The seven `obuf[i++] = hex(...)` stores of a record's token. */
    method PutToken(e: Entry)
      requires obuf.Length == OBUF_SIZE
      modifies obuf
      ensures obuf[..|Token(e)|] == Token(e)
      ensures obuf[|Token(e)|..] == old(obuf[|Token(e)|..])
    {
      obuf[0] := Hex(e.thi / 16);
      obuf[1] := Hex(e.thi % 16);
      obuf[2] := Hex(e.tlo / 16);
      obuf[3] := Hex(e.tlo % 16);
      obuf[4] := Hex(e.port / 16);
      obuf[5] := Hex(e.port % 16);
      obuf[6] := Hex(e.flag % 2);
    }

    /** Formats one popped record: its token, the separator that
        `--remaining` selects (resetting the countdown after a newline), the
        terminating NUL, and the cursor back to the start. */
    method Write(e: Entry)
      requires Valid()
      modifies this, obuf
      ensures Valid() && sent == old(sent)
      ensures obuf[..TEXT_END + 1] == Token(e) + [Separator(old(remaining))] + [NUL]
      ensures obuf[TEXT_END + 1..] == old(obuf[TEXT_END + 1..])
      ensures obufIdx == 0 && Pending() == Token(e) + [Separator(old(remaining))]
      ensures remaining == NextRemaining(old(remaining))
    {
      PutToken(e);
      ghost var sep := Separator(remaining);
      remaining := Countdown(remaining);
      if remaining != 0 {
        obuf[7] := ' ';
      } else {
        obuf[7] := '\n';
        remaining := ITEMS_PER_LINE;
      }
      obuf[TEXT_END] := NUL;
      obufIdx := 0;
      assert obuf[..TEXT_END] == Token(e) + [sep];
      TextUpTo(obuf[..], 0, TEXT_END);
    }

    /** Sends one byte of `obuf` when there is one and the channel is ready;
        what was sent followed by what is pending does not change. */
    method Transmit(ready: bool)
      requires Valid()
      modifies this
      ensures Valid() && remaining == old(remaining)
      ensures sent + Pending() == old(sent + Pending())
      ensures old(obuf[obufIdx]) != NUL && ready ==>
                sent == old(sent) + [old(obuf[obufIdx])] && obufIdx == old(obufIdx) + 1
      ensures !(old(obuf[obufIdx]) != NUL && ready) ==>
                sent == old(sent) && obufIdx == old(obufIdx)
    {
      if obuf[obufIdx] != NUL && ready {
        ghost var rest := Pending();
        assert rest == [obuf[obufIdx]] + TextFrom(obuf[..], obufIdx + 1);
        sent := sent + [obuf[obufIdx]];
        obufIdx := obufIdx + 1;
      }
    }
  }
}
