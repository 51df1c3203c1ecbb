# XY2_100 galvo driver — Dafny model

This project models the core of the XY2_100 driver for Teensy boards. The
driver drives an XY2-100 galvanometer scanner through a DMA channel that
streams bytes to a GPIO port.

`setXY(X, Y)` turns a sample of two unsigned 16-bit coordinates into one
frame:

- Each coordinate becomes a 20-bit channel field. The header bit is bit 17,
  the data are bits 16..1, and bit 0 is an even-parity bit over bits 0..19.
- The two fields are emitted together, bit position 19 first. Each position
  produces one entry of a four-entry lookup table, indexed by the pair of
  channel bits at that position.
- The `Sync0` table is used only for position 0 (frame sync low). The `Sync1`
  table is used for every other position.

Frames live in two buffers, ping and pong. The DMA channel streams one of them
again and again. `setXY` writes the other buffer and then updates the `txPing`
flags with interrupts masked: it flips bit 0 and sets bit 1. The DMA
completion interrupt `isr` sees bit 1, clears it, and points the channel at
the buffer that bit 0 names. `stat` reports `txPing` and clears bit 7.
`setSignedXY` biases signed samples into the unsigned range.

Modules:

- `Encoder` (encoder.dfy) holds the pure frame specification.
  - `ChannelField`, `WithParity`, `Field`, `TableIndex`, `Table` and
    `FrameEntries` define the frame.
  - The two loops of `setXY` are methods proved against those functions:
    `EncodeChannels` is the parity loop and `EmitFrame` the emission loop.
  - A receiver-side reference decoder, `DecodeFrame`, is the encoder's
    partner. It recovers exactly the encoded sample, and it accepts nothing
    but encoded frames.
- `Handoff` (handoff.dfy) models the ping-pong handoff as a state machine over
  `txPing`, the channel's source buffer and both buffer contents.
  - Its steps are `Begin`, `WriteFrame`, `Publish`, `Interrupt` and `Stat`.
  - Its invariant is `Protocol`.
  - A trace model of calls and interrupts proves the safety theorem: from
    the state after `begin()`, the driver never writes into the buffer being
    streamed if and only if `setXY` runs at most once between two completion
    interrupts.
- `Driver` (driver.dfy) holds the class `XY2_100`, whose fields are two
  arrays, `txPing`, `source`, `lastX` and `lastY`.
  - Each method performs exactly one `Handoff` step on the abstract value
    `State()`.
  - `setXY` is also available as `WriteFrame` followed by `Publish`, because
    a completion interrupt can run between the two.
  - The module also holds the signed bias, `Bias` and `Unbias`.

Representation choices:

- Channel fields are `uint32` in the driver but never exceed 2^18. They are
  exact naturals here, and "bit i" is defined by repeated halving.
- `txPing` is a `bv8`.
- Table entries and samples use the `u16` newtype.
- A buffer is the sequence of the 20 table entries the emission loop selects,
  one per bit position, position 19 first. How the driver packs these entries
  into machine words is not modelled (see "Left out").

## Model

| member | source | states |
|---|---|---|
| `Encoder.ChannelField` | XY2_100.cpp:275-276 | bit 17 (header) set; bits 0, 18 and 19 clear; bits 16..1 read back as the sample; value within [0x20000, 0x40000) |
| `Encoder.Bit` | XY2_100.cpp:293-294 | the test `f & (1 << i)`, also at lines 325-332; a set bit i means f is at least 2^i; `BitValue`, `BitTop` and `BitAbove` state its other properties |
| `Encoder.BitValue` | XY2_100.cpp:293-294 | bit i of f is set exactly when f / 2^i is odd |
| `Encoder.Or1` | XY2_100.cpp:297-298 | `f \| 1` sets bit 0 and leaves every higher bit as it was |
| `Encoder.WithParity` | XY2_100.cpp:292-298 | only bit 0 may change, by +1; the set-bit count over positions 0..19 of the result is even |
| `Encoder.ParityUnique` | XY2_100.cpp:292-298 | of the two completions of a field with bit 0 clear, the even-parity one is exactly what the parity step returns |
| `Encoder.Field` | XY2_100.cpp:275-298 | the complete channel field keeps the header range, carries the sample in bits 16..1 and has even parity |
| `Encoder.ChannelFieldCount` | XY2_100.cpp:292-298 | the parity loop counts the header bit plus the sample's set bits; bit 0 ends up set exactly when the sample has an even number of set bits |
| `Encoder.FieldBoundaries` | XY2_100.cpp:275-298 | sample 0 gives field 0x20001; sample 0xFFFF gives field 0x3FFFF |
| `Encoder.TableIndex` | XY2_100.cpp:325-332 | index in 0..3; its low bit is channel 1's bit at the position and its high bit is channel 2's bit |
| `Encoder.Table` | XY2_100.cpp:285-287 | four entries; the Sync0 table is used exactly at position 0 |
| `Encoder.Entry` | XY2_100.cpp:325-338 | the entry picked for one position comes from that position's table; it is a Sync0 entry exactly at position 0 and a Sync1 entry everywhere else; `DecodeEntryOf` shows that it determines the table index |
| `Encoder.FrameOf` | XY2_100.cpp:318-341 | a frame has 20 entries; entry k is the table entry for bit position 19 - k (its content properties are stated by `SyncPlacement`, `DecodeEncode` and `EncodeDecode`) |
| `Encoder.FrameEntries` | XY2_100.cpp:269-341 | the frame of a sample is the 20 entries emitted for its two complete channel fields |
| `Encoder.TablesDistinct` | XY2_100.cpp:285-287 | the eight table entries are pairwise distinct, so every entry identifies its sync level and table index |
| `Encoder.SyncPlacement` | XY2_100.cpp:334-338 | entries 0..18 of every frame come from Sync1 and are not Sync0 entries; the last entry (position 0) comes from Sync0 and is not a Sync1 entry |
| `Encoder.DecodeEntryOf` | XY2_100.cpp:325-338 | every emitted entry decodes to the table index it was chosen by |
| `Encoder.FieldOkIsField` | XY2_100.cpp:275-298 | a field with header 001 and even parity is exactly the encoder's field for its data bits |
| `Encoder.DecodeEncode` | XY2_100.cpp:269-341 | round trip: decoding the frame of (x, y) yields (x, y) |
| `Encoder.EncodeDecode` | XY2_100.cpp:269-341 | a sequence that decodes to (x, y) is the frame of (x, y), so the decoder accepts encoder output only |
| `Encoder.EncodeInjective` | XY2_100.cpp:269-341 | different samples give different frames |
| `Encoder.EncodeChannels` | XY2_100.cpp:275-298 | the parity loop with its two 8-bit counters produces exactly `Field(X)` and `Field(Y)` |
| `Encoder.EmitFrame` | XY2_100.cpp:318-341 | the emission loop runs 10 times, one store per pair of positions (within DMA_MEM_SIZE on both platforms), and the entries it selects are exactly the frame, position 19 first |
| `Handoff.TxSlot` | XY2_100.cpp:228-232 | the buffer bit 0 names (line 60): ping exactly while txPing is even |
| `Handoff.Pending` | XY2_100.cpp:225 | bit 1 of txPing: set exactly when txPing / 2 is odd |
| `Handoff.FlagUpdates` | XY2_100.cpp:226-345 | the driver's flag updates (`^= 1`, `\|= 2`, `&= ~2`, `&= ~128`) act on the two flags as intended: only `^= 1` changes the named buffer, only `\|= 2` and `&= ~2` change bit 1 |
| `Handoff.WriteTarget` | XY2_100.cpp:300-304 | setXY's buffer is never the one bit 0 names as in transmission, and it is the one that flipping bit 0 names |
| `Handoff.Blank` | XY2_100.cpp:80-81 | a cleared buffer holds 20 zero entries |
| `Handoff.Begin` | XY2_100.cpp:75-86 | both buffers cleared, the channel streams ping, txPing unchanged |
| `Handoff.WriteFrame` | XY2_100.cpp:289-341 | the frame of (x, y) lands in the write target; flags, channel and the buffer in transmission are unchanged |
| `Handoff.Publish` | XY2_100.cpp:343-346 | bit 1 set, bit 0 now names the buffer just written, bits 2..7, buffers and channel unchanged |
| `Handoff.Interrupt` | XY2_100.cpp:224-233 | bit 1 cleared; with bit 1 set the channel moves to the buffer bit 0 names, otherwise the state is unchanged; bit 0 and the buffers never change |
| `Handoff.Stat` | XY2_100.cpp:257-261 | returns txPing as it was; clears bit 7 and nothing else |
| `Handoff.Init` | XY2_100.cpp:68-86 | the state after construction and begin() satisfies the protocol invariant with nothing pending, ping streaming and both buffers cleared |
| `Handoff.ConstructThenBegin` | XY2_100.cpp:68-86 | begin() after the constructor's txPing = 0 gives the initial state |
| `Handoff.IdleWriteSafe` | XY2_100.cpp:300-304 | with nothing pending, setXY writes the buffer not being streamed, and an interrupt anywhere in the write changes nothing |
| `Handoff.SetXYKeepsProtocol` | XY2_100.cpp:300-346 | setXY with nothing pending keeps the invariant, leaves its frame pending and the channel where it was |
| `Handoff.InterruptKeepsProtocol` | XY2_100.cpp:224-233 | every interrupt keeps the invariant, clears the pending bit and leaves the channel on the buffer bit 0 names |
| `Handoff.AdoptedAtNextIsr` | XY2_100.cpp:224-233 | after setXY and one interrupt, the channel streams the buffer setXY wrote, which holds the frame of (x, y); later interrupts keep streaming it |
| `Handoff.OverrunHazard` | XY2_100.cpp:300-304 | a setXY while a frame is pending writes the buffer being streamed, and the next interrupt leaves the channel on it |
| `Handoff.DoubleSetXY` | XY2_100.cpp:300-346 | two setXY calls after begin(): the second overwrites ping while ping streams, the channel stays on ping and the first frame (in pong) is never streamed |
| `Handoff.StatIdempotent` | XY2_100.cpp:257-261 | a second stat() reports the cleared flags and changes nothing |
| `Handoff.StatUnderProtocol` | XY2_100.cpp:234-261 | bit 7 is never set (the only write of it is commented out), so stat() changes nothing and its result has bit 7 clear |
| `Handoff.Step` | XY2_100.cpp:224-347 | one call or interrupt, where an interrupt may land during setXY's write: after setXY its frame is pending in the buffer bit 0 names; after an interrupt nothing is pending; stat() moves no buffer and no contents; the invariant and safety lemmas below are about it |
| `Handoff.StepKeepsProtocol` | XY2_100.cpp:224-346 | every call or interrupt allowed by the pacing rule keeps the invariant, and bit 1 is set exactly when a setXY happened since the last interrupt |
| `Handoff.PacedIffSafe` | XY2_100.cpp:224-346 | from any state with the invariant, a sequence of calls and interrupts never writes the streamed buffer if and only if it has at most one setXY between interrupts |
| `Handoff.InitSafeIffPaced` | XY2_100.cpp:68-346 | the same equivalence from the state after the constructor and begin() |
| `Handoff.PacedRunKeepsProtocol` | XY2_100.cpp:224-346 | a paced sequence keeps the invariant to its end |
| `Driver.Bias` | XY2_100.cpp:263-267 | the 16-bit truncation never discards anything: the result is the signed value plus 32768 |
| `Driver.Unbias` | XY2_100.cpp:263-267 | every unsigned sample is the bias of exactly this signed value |
| `Driver.BiasBijection` | XY2_100.cpp:263-267 | the bias is a bijection that preserves order, with -32768 giving 0 and 32767 giving 65535 |
| `Driver.XY2_100.constructor` | XY2_100.cpp:68-72 | two distinct fresh buffers of one frame each, txPing 0 |
| `Driver.XY2_100.Begin` | XY2_100.cpp:75-86 | performs `Handoff.Begin` on the object's state |
| `Driver.XY2_100.WriteFrame` | XY2_100.cpp:269-341 | performs `Handoff.WriteFrame` on the object's arrays and records lastX and lastY |
| `Driver.XY2_100.Publish` | XY2_100.cpp:343-346 | performs `Handoff.Publish` on txPing |
| `Driver.XY2_100.SetXY` | XY2_100.cpp:269-347 | performs WriteFrame then Publish and records the sample |
| `Driver.XY2_100.SetSignedXY` | XY2_100.cpp:263-267 | is setXY of the biased coordinates |
| `Driver.XY2_100.Isr` | XY2_100.cpp:221-234 | performs `Handoff.Interrupt` on txPing and the channel's source |
| `Driver.XY2_100.Stat` | XY2_100.cpp:257-261 | returns and updates exactly as `Handoff.Stat` |

## Left out

- Hardware bring-up in begin() (XY2_100.cpp:83-218) is not modelled: GPIO, IOMUXC, PIT, FTM2 and DMAMUX register writes, pin modes, and the timer frequency and modulus arithmetic.
- DMAChannel calls are foreign code. `sourceBuffer` is modelled only as an assignment to the abstract `source` field. transferSize, transferCount, enable, clearInterrupt and the interrupt attachment are not modelled.
- The timer re-arm sequence in isr() (XY2_100.cpp:236-252) is register writes with no logic and is not modelled.
- Preemption is modelled as interleaving at whole steps only. A completion interrupt may run before setXY, between its frame write and its flag update, or after it. Masking with noInterrupts/interrupts is the atomicity of `Publish`. An interrupt in the middle of the frame write is covered only through `Handoff.IdleWriteSafe`, which shows that such an interrupt changes nothing while no frame is pending.
- The packing of each pair of entries into the stored word (XY2_100.cpp:328-340) is not modelled. As written, the second entry of every pair is discarded, on both platforms:
  - On Teensy 3.x, `uint_per_cycle` is 32 bits (line 49), so `(uint_per_cycle)(Sync…[j] << 16) << 16` at lines 335 and 337 is 0.
  - On Teensy 4.1, the 64-bit word (line 41) is stored through a `uint32_t` pointer (lines 270 and 340), which keeps only its low 32 bits.
  - So each stored word holds only the entry for an odd position (19, 17, …, 1), in bits 16..31. The even positions are lost, including the Sync0 entry of position 0.
  - The model keeps the intended 20-entry sequence the loop selects. `Encoder.EmitFrame`, `Encoder.SyncPlacement` and the decoder lemmas describe that sequence, not the stored words.
- The driver's state is static in the source and shared by every instance (XY2_100.cpp:52-61): `txPing`, `pingBuffer`/`pongBuffer`, `lastX`/`lastY`, the DMA channel and, through it, `isr`. The class `Driver.XY2_100` keeps one copy per object. The model does not capture two objects sharing, and interfering through, the same flags and buffers.
- The meaning of the individual bits of the Sync1 and Sync0 entries (clock, sync and channel pins, differential pairs) is not modelled. The tables are constants that the model only indexes and compares.
- The DMA channel is not modelled as reading the buffer byte by byte. "Streaming" a buffer means being the channel's source.
- Before begin() the channel has no source. `Driver.XY2_100.constructor` sets `source` to ping as a placeholder and states nothing about it.
- `lastX` and `lastY` are not initialised by the driver's constructor. The model sets them to 0.
