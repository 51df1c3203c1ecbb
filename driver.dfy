/**
 * The XY2_100 driver object: two frame buffers, the txPing flags, the DMA
 * channel's source buffer and the last sample written.
 *
 * Each method performs exactly one step of module Handoff on the abstract
 * value State(), so the handoff lemmas there (the invariant, safety exactly
 * under "one setXY per completion interrupt", the overrun hazard) hold of
 * the object.  setXY is split into WriteFrame and Publish because a
 * completion interrupt can run between the two; Publish is the part the
 * driver runs with interrupts masked.
 */
module Driver {
  import opened Encoder
  import Handoff

  /** The signed 16-bit sample type of setSignedXY. */
  newtype i16 = x: int | -0x8000 <= x < 0x8000

  /**
   * The bias of setSignedXY (lines 264-266): widen to 32 bits, add 32768,
   * truncate to 16 bits.  The truncation never discards anything.
   */
  function Bias(v: i16): (u: u16)
    ensures u as int == v as int + 0x8000
  {
    ((v as int + 0x8000) % 0x1_0000) as u16
  }

  /** The inverse of the bias: every unsigned sample has one signed origin. */
  function Unbias(u: u16): (v: i16)
    ensures Bias(v) == u
  {
    (u as int - 0x8000) as i16
  }

  /** The bias is a bijection that keeps the order, with the ends of the ranges matched. */
  lemma BiasBijection(v: i16, w: i16)
    ensures Unbias(Bias(v)) == v
    ensures v < w <==> Bias(v) < Bias(w)
    ensures Bias(-0x8000) == 0 && Bias(0x7FFF) == 0xFFFF
  {
  }

  class XY2_100 {
    /** The ping and pong buffers, one table entry per bit position. */
    var ping: array<u16>
    var pong: array<u16>
    /** The txPing flags (bit 0 names the buffer in transmission, bit 1 pending). */
    var txPing: bv8
    /** The buffer the DMA channel streams from. */
    var source: Handoff.Slot
    /** The last sample passed to setXY. */
    var lastX: u16
    var lastY: u16

    /** Two distinct buffers of one frame each. */
    ghost predicate Valid()
      reads this
    {
      ping.Length == FrameBits && pong.Length == FrameBits && ping != pong
    }

    /** The handoff state this object stands for. */
    ghost function State(): Handoff.State
      reads this, ping, pong
    {
      Handoff.State(txPing, source, ping[..], pong[..])
    }

    /**
     * The constructor (lines 68-72): two buffers of its own and txPing 0.
     * The DMA channel has no source until begin(); ping stands in for it.
     */
    constructor ()
      ensures Valid() && fresh(ping) && fresh(pong)
      ensures txPing == 0
    {
      ping := new u16[FrameBits];
      pong := new u16[FrameBits];
      txPing := 0;
      source := Handoff.Ping;
      lastX, lastY := 0, 0;
    }

    /** begin() (lines 80-86): clear both buffers and stream from ping. */
    method Begin()
      requires Valid()
      modifies this`source, ping, pong
      ensures Valid()
      ensures State() == Handoff.Begin(old(State()))
    {
      forall k | 0 <= k < ping.Length {
        ping[k] := 0;
      }
      forall k | 0 <= k < pong.Length {
        pong[k] := 0;
      }
      source := Handoff.Ping;
      assert ping[..] == Handoff.Blank() && pong[..] == Handoff.Blank();
    }

    /**
     * setXY up to the handoff (lines 275-341): record the sample, encode it,
     * and store its frame in the buffer bit 0 of txPing does not name.
     */
    method WriteFrame(x: u16, y: u16)
      requires Valid()
      modifies this`lastX, this`lastY, ping, pong
      ensures Valid()
      ensures State() == Handoff.WriteFrame(old(State()), x, y)
      ensures lastX == x && lastY == y
    {
      lastX := x;
      lastY := y;
      var ch1, ch2 := EncodeChannels(x, y);
      var p := if txPing & 1 != 0 then ping else pong;
      var words := EmitFrame(ch1, ch2, p);
    }

    /** The end of setXY (lines 343-346): flip bit 0 and set bit 1 of txPing. */
    method Publish()
      requires Valid()
      modifies this`txPing
      ensures Valid()
      ensures State() == Handoff.Publish(old(State()))
    {
      txPing := (txPing ^ 1) | 2;
    }

    /** setXY (lines 269-347) when no interrupt runs before it publishes. */
    method SetXY(x: u16, y: u16)
      requires Valid()
      modifies this`lastX, this`lastY, this`txPing, ping, pong
      ensures Valid()
      ensures State() == Handoff.Publish(Handoff.WriteFrame(old(State()), x, y))
      ensures lastX == x && lastY == y
    {
      WriteFrame(x, y);
      Publish();
    }

    /** setSignedXY (lines 263-267): bias both coordinates, then setXY. */
    method SetSignedXY(x: i16, y: i16)
      requires Valid()
      modifies this`lastX, this`lastY, this`txPing, ping, pong
      ensures Valid()
      ensures State() == Handoff.Publish(Handoff.WriteFrame(old(State()), Bias(x), Bias(y)))
      ensures lastX == Bias(x) && lastY == Bias(y)
    {
      SetXY(Bias(x), Bias(y));
    }

    /**
     * isr() (lines 224-233): adopt a pending frame by clearing bit 1 and
     * pointing the channel at the buffer bit 0 names.
     */
    method Isr()
      requires Valid()
      modifies this`txPing, this`source
      ensures Valid()
      ensures State() == Handoff.Interrupt(old(State()))
    {
      if txPing & 2 != 0 {
        txPing := txPing & 0xFD;
        if txPing & 1 != 0 {
          source := Handoff.Pong;
        } else {
          source := Handoff.Ping;
        }
      }
    }

    /** stat() (lines 257-261): return txPing, then clear bit 7. */
    method Stat() returns (ret: bv8)
      requires Valid()
      modifies this`txPing
      ensures Valid()
      ensures (ret, State()) == Handoff.Stat(old(State()))
    {
      ret := txPing;
      txPing := txPing & 0x7F;
    }
  }
}
