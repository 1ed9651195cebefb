/** The output formatter's text: a 7-digit token per record, the separator
    chosen by the per-line countdown, and the NUL-terminated text buffer. */
module Format {
  import opened Records
  import opened HexDigit

  /** `items_per_line`: tokens per output line. */
  const ITEMS_PER_LINE: Byte := 10

  /** Characters a record occupies in the output: its token and one separator. */
  const RECORD_TEXT_LEN: nat := 8

  const NUL: char := '\0'

  /** The token of an output-queue record: timer high byte, timer low byte and
      port snapshot as two digits each (high nibble first), then the low bit of
      the timer-event flag. `>> 4` and `& 0x0F` on an unsigned byte are `/ 16`
      and `% 16`. */
  function Token(e: Entry): (t: seq<char>)
    ensures |t| == 7
    ensures forall i :: 0 <= i < |t| ==> IsHexDigit(t[i])
    ensures t[6] == '0' || t[6] == '1'
  {
    [Hex(e.thi / 16), Hex(e.thi % 16), Hex(e.tlo / 16), Hex(e.tlo % 16),
     Hex(e.port / 16), Hex(e.port % 16), Hex(e.flag % 2)]
  }

  /** The byte written as the two digits `hi` `lo`. */
  function ByteOf(hi: char, lo: char): (b: Byte)
    requires IsHexDigit(hi) && IsHexDigit(lo)
    ensures b / 16 == HexValue(hi) && b % 16 == HexValue(lo)
  {
    16 * HexValue(hi) + HexValue(lo)
  }

  /** How a reader of the stream decodes a token; `None` for text that no record produces. */
  function Parse(t: seq<char>): Option<Entry>
  {
    if |t| == 7 && (forall i :: 0 <= i < 7 ==> IsHexDigit(t[i])) && HexValue(t[6]) < 2 then
      Some(Entry(ByteOf(t[2], t[3]), ByteOf(t[0], t[1]), ByteOf(t[4], t[5]), HexValue(t[6])))
    else
      None
  }

  /** A token carries the record's timestamp and port exactly, and its flag's low bit. */
  lemma ParseToken(e: Entry)
    ensures Parse(Token(e)) == Some(Entry(e.tlo, e.thi, e.port, e.flag % 2))
  {
    var t := Token(e);
    assert ByteOf(t[2], t[3]) == e.tlo;
    assert ByteOf(t[0], t[1]) == e.thi;
    assert ByteOf(t[4], t[5]) == e.port;
  }

  /** Conversely, every text that decodes is the token of what it decodes to. */
  lemma TokenOfParse(t: seq<char>)
    requires Parse(t).Some?
    ensures Token(Parse(t).value) == t
  {
    var e := Parse(t).value;
    assert e.thi / 16 == HexValue(t[0]) && e.thi % 16 == HexValue(t[1]);
    assert e.tlo / 16 == HexValue(t[2]) && e.tlo % 16 == HexValue(t[3]);
    assert e.port / 16 == HexValue(t[4]) && e.port % 16 == HexValue(t[5]);
    assert e.flag % 2 == HexValue(t[6]);
    forall i | 0 <= i < 7 ensures Token(e)[i] == t[i] {
      HexOfValue(t[i]);
    }
  }

  /** The record (tlo 0x34, thi 0x12, port 0xAA) as an edge and as a timer tick. */
  lemma TokenExample()
    ensures Token(Entry(0x34, 0x12, 0xAA, 0)) == "1234AA0"
    ensures Token(Entry(0x34, 0x12, 0xAA, 1)) == "1234AA1"
  {
  }

  /** `--remaining` on the 8-bit counter. */
  function Countdown(r: Byte): (d: Byte)
    ensures r > 0 ==> d == r - 1
    ensures r == 0 ==> d == 255
  {
    (r + 255) % 256
  }

  /** The separator written after the token when the counter holds `r`:
      a newline exactly when the decrement reaches zero, a space otherwise
      (including the wrap from 0 to 255). */
  function Separator(r: Byte): (c: char)
    ensures c == ' ' || c == '\n'
    ensures c == '\n' <==> r == 1
  {
    if Countdown(r) != 0 then ' ' else '\n'
  }

  /** The counter after formatting one record. */
  function NextRemaining(r: Byte): (n: Byte)
    ensures 1 <= r <= ITEMS_PER_LINE ==> 1 <= n <= ITEMS_PER_LINE
  {
    if Countdown(r) != 0 then Countdown(r) else ITEMS_PER_LINE
  }

  /** The counter after formatting `n` records. */
  function RemainingAfter(r: Byte, n: nat): Byte
    decreases n
  {
    if n == 0 then r else RemainingAfter(NextRemaining(r), n - 1)
  }

  /** The text of a stream of output records formatted from counter `r`. */
  function Render(es: seq<Entry>, r: Byte): (t: seq<char>)
    ensures |t| == RECORD_TEXT_LEN * |es|
    decreases |es|
  {
    if es == [] then [] else Token(es[0]) + [Separator(r)] + Render(es[1..], NextRemaining(r))
  }

  lemma {:induction false} RemainingAfterStep(r: Byte, n: nat)
    ensures RemainingAfter(r, n + 1) == NextRemaining(RemainingAfter(r, n))
    decreases n
  {
    if n > 0 {
      RemainingAfterStep(NextRemaining(r), n - 1);
    }
  }

  lemma {:induction false} RemainingAfterAdd(r: Byte, a: nat, b: nat)
    ensures RemainingAfter(RemainingAfter(r, a), b) == RemainingAfter(r, a + b)
    decreases a
  {
    if a > 0 {
      RemainingAfterAdd(NextRemaining(r), a - 1, b);
    }
  }

  /** From a counter in 1..10, the counter after `n` records is determined by
      the position in the line: `10 - r` records already on it, plus `n`. */
  lemma {:induction false} RemainingPhase(r: Byte, n: nat)
    requires 1 <= r <= ITEMS_PER_LINE
    ensures RemainingAfter(r, n) == ITEMS_PER_LINE - (ITEMS_PER_LINE - r + n) % ITEMS_PER_LINE
    decreases n
  {
    if n > 0 {
      RemainingPhase(NextRemaining(r), n - 1);
    }
  }

  /** Rendering is compositional: the second part continues from the counter the first part left. */
  lemma {:induction false} RenderAppend(a: seq<Entry>, b: seq<Entry>, r: Byte)
    ensures Render(a + b, r) == Render(a, r) + Render(b, RemainingAfter(r, |a|))
    decreases |a|
  {
    if a != [] {
      assert (a + b)[1..] == a[1..] + b;
      RenderAppend(a[1..], b, NextRemaining(r));
    } else {
      assert a + b == b;
    }
  }

  /** The `i`-th record's text sits at offset 8 * i: its token, then its separator. */
  lemma RenderAt(es: seq<Entry>, r: Byte, i: nat)
    requires i < |es|
    ensures Render(es, r)[RECORD_TEXT_LEN * i .. RECORD_TEXT_LEN * i + 7] == Token(es[i])
    ensures Render(es, r)[RECORD_TEXT_LEN * i + 7] == Separator(RemainingAfter(r, i))
  {
    var before, from := es[..i], es[i..];
    assert es == before + from;
    RenderAppend(before, from, r);
    var head := Render(before, r);
    var rest := Render(from, RemainingAfter(r, i));
    assert rest == Token(es[i]) + [Separator(RemainingAfter(r, i))] + Render(from[1..], NextRemaining(RemainingAfter(r, i)));
    SkipPrefix(head, rest);
  }

  lemma SkipPrefix(a: seq<char>, b: seq<char>)
    requires |b| >= RECORD_TEXT_LEN
    ensures (a + b)[|a| .. |a| + 7] == b[..7]
    ensures (a + b)[|a| + 7] == b[7]
  {
  }

  /** The first four records of a line from the initial counter: each token followed by a space. */
  lemma FourTokens(a: Entry, b: Entry, c: Entry, d: Entry)
    ensures Render([a, b, c, d], ITEMS_PER_LINE)
            == Token(a) + " " + Token(b) + " " + Token(c) + " " + Token(d) + " "
  {
    RenderAppend([a, b], [c, d], 10);
    assert [a, b] + [c, d] == [a, b, c, d];
    assert RemainingAfter(10, 2) == 8;
    TwoRecords(a, b, 10);
    TwoRecords(c, d, 8);
  }

  lemma TwoRecords(a: Entry, b: Entry, r: Byte)
    ensures Render([a, b], r) == Token(a) + [Separator(r)] + Token(b) + [Separator(NextRemaining(r))]
  {
    assert [a, b][1..] == [b];
  }

  /** An edge at 0x0001, ticks at 0x0002 and 0x0003, and an edge at 0x0005 (with a
      different port) as the start of a line. */
  lemma RenderExample()
    ensures Render([Entry(0x01, 0x00, 0x01, 0), Entry(0x02, 0x00, 0x01, 1),
                    Entry(0x03, 0x00, 0x01, 1), Entry(0x05, 0x00, 0x03, 0)], ITEMS_PER_LINE)
            == "0001010" + " " + "0002011" + " " + "0003011" + " " + "0005030" + " "
  {
    FourTokens(Entry(0x01, 0x00, 0x01, 0), Entry(0x02, 0x00, 0x01, 1),
               Entry(0x03, 0x00, 0x01, 1), Entry(0x05, 0x00, 0x03, 0));
    ExampleTokens();
  }

  lemma ExampleTokens()
    ensures Token(Entry(0x01, 0x00, 0x01, 0)) == "0001010"
    ensures Token(Entry(0x02, 0x00, 0x01, 1)) == "0002011"
    ensures Token(Entry(0x03, 0x00, 0x01, 1)) == "0003011"
    ensures Token(Entry(0x05, 0x00, 0x03, 0)) == "0005030"
  {
  }

  /** From the initial counter, the 10th, 20th, ... records end their line with a
      newline and every other record is followed by a space. */
  lemma LineBreaks(es: seq<Entry>, i: nat)
    requires i < |es|
    ensures Render(es, ITEMS_PER_LINE)[RECORD_TEXT_LEN * i + 7]
            == if (i + 1) % ITEMS_PER_LINE == 0 then '\n' else ' '
  {
    RenderAt(es, ITEMS_PER_LINE, i);
    RemainingPhase(ITEMS_PER_LINE, i);
    assert RemainingAfter(ITEMS_PER_LINE, i) == ITEMS_PER_LINE - i % ITEMS_PER_LINE;
    LinePositionStep(i);
  }

  /** The position in the line after record `i`. */
  lemma LinePositionStep(i: nat)
    ensures (i + 1) % 10 == if i % 10 == 9 then 0 else i % 10 + 1
  {
  }

  /** Ten records make one line (nine spaces, one newline) and the counter is back at its start. */
  lemma TenPerLine(es: seq<Entry>)
    requires |es| == ITEMS_PER_LINE as int
    ensures forall i :: 0 <= i < 9 ==> Render(es, ITEMS_PER_LINE)[RECORD_TEXT_LEN * i + 7] == ' '
    ensures Render(es, ITEMS_PER_LINE)[RECORD_TEXT_LEN * 9 + 7] == '\n'
    ensures RemainingAfter(ITEMS_PER_LINE, |es|) == ITEMS_PER_LINE
  {
    forall i | 0 <= i < 9 ensures Render(es, ITEMS_PER_LINE)[RECORD_TEXT_LEN * i + 7] == ' ' {
      LineBreaks(es, i);
    }
    LineBreaks(es, 9);
    RemainingPhase(ITEMS_PER_LINE, 10);
  }

  /** The text that a transmit cursor at `i` still has to send: everything up
      to the first NUL (or the end of the buffer). */
  function TextFrom(s: seq<char>, i: nat): (t: seq<char>)
    requires i <= |s|
    ensures i + |t| <= |s| && t == s[i .. i + |t|]
    ensures NUL !in t
    ensures i + |t| < |s| ==> s[i + |t|] == NUL
    decreases |s| - i
  {
    if i == |s| || s[i] == NUL then [] else [s[i]] + TextFrom(s, i + 1)
  }

  /** A NUL-free run ended by a NUL is exactly the text from its start. */
  lemma TextUpTo(s: seq<char>, i: nat, j: nat)
    requires i <= j < |s| && NUL !in s[i..j] && s[j] == NUL
    ensures TextFrom(s, i) == s[i..j]
  {
  }
}
