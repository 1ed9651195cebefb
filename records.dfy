/** Values shared by the whole pipeline: bytes, the 4-byte queue entry, and Option. */
module Records {

  /** An unsigned 8-bit value, as `uint8_t` in the firmware. */
  type Byte = x: int | 0 <= x < 256

  /** Number of bytes in one entry of either queue (IQENTRYSZ and OQENTRYSZ). */
  const ENTRY_SIZE: nat := 4

  /** One queue entry, in storage order: timer low byte, timer high byte,
      port snapshot, and the marker byte. In the input queue the marker is the
      capture flag (zero for a timer tick, non-zero for a pin edge); in the
      output queue it is the timer-event flag (1 for a tick, 0 for an edge). */
  datatype Entry = Entry(tlo: Byte, thi: Byte, port: Byte, flag: Byte)

  datatype Option<T> = None | Some(value: T)
}
