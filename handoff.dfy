/**
 * The ping-pong handoff between XY2_100::setXY and the DMA completion
 * interrupt XY2_100::isr.
 *
 * Two buffers hold one frame each.  The DMA channel streams one of them (the
 * source) over and over; setXY writes the next frame into the other one and
 * then flips bit 0 of txPing and sets bit 1; the next completion interrupt
 * sees bit 1, clears it and points the channel at the buffer bit 0 names.
 *
 * txPing:
 *   bit 0  the buffer the application considers in transmission (0 = ping),
 *   bit 1  a new frame has been published and waits for the next interrupt,
 *   bit 7  reserved for stat() to clear; nothing in the driver sets it.
 *
 * Everything here is a value; the driver class in module Driver is proved to
 * perform exactly these steps on its fields and arrays.
 */
module Handoff {
  import opened Encoder

  /** One of the two DMA buffers. */
  datatype Slot = Ping | Pong

  /**
   * The handoff state: the txPing flags, the buffer the DMA channel streams
   * from, and the contents of both buffers.
   */
  datatype State = State(txPing: bv8, source: Slot, ping: seq<u16>, pong: seq<u16>)

  /**
   * The buffer bit 0 of txPing names as being in transmission (line 60):
   * ping while txPing is even.
   */
  function TxSlot(t: bv8): (s: Slot)
    ensures s == Ping <==> t as int % 2 == 0
  {
    if t & 1 == 0 then Ping else Pong
  }

  /**
   * The buffer setXY writes (lines 300-304): never the one bit 0 names as
   * being in transmission, and the one that flipping bit 0 names next.
   */
  function WriteTarget(t: bv8): (s: Slot)
    ensures s != TxSlot(t)
    ensures TxSlot(t ^ 1) == s
  {
    if t & 1 != 0 then Ping else Pong
  }

  /**
   * Bit 1 of txPing, the test of line 225: a published frame waits for the
   * next interrupt.
   */
  function Pending(t: bv8): (p: bool)
    ensures p <==> (t as int / 2) % 2 == 1
  {
    t & 2 != 0
  }

  /**
   * How the driver's flag updates act on the two flags: flipping bit 0
   * names the other buffer and keeps bit 1; setting or clearing bit 1
   * names the same buffer; clearing bit 7 changes neither flag.
   */
  lemma FlagUpdates(t: bv8)
    ensures TxSlot(t ^ 1) != TxSlot(t) && Pending(t ^ 1) == Pending(t)
    ensures TxSlot(t | 2) == TxSlot(t) && Pending(t | 2)
    ensures TxSlot(t & 0xFD) == TxSlot(t) && !Pending(t & 0xFD)
    ensures TxSlot(t & 0x7F) == TxSlot(t) && Pending(t & 0x7F) == Pending(t)
  {
  }

  /** The contents of one buffer. */
  function Buffer(st: State, s: Slot): seq<u16>
  {
    if s == Ping then st.ping else st.pong
  }

  /** A buffer cleared to zero. */
  function Blank(): (b: seq<u16>)
    ensures |b| == FrameBits
    ensures forall k :: 0 <= k < |b| ==> b[k] == 0
  {
    seq(FrameBits, _ => 0)
  }

  /**
   * begin(): both buffers cleared and the channel pointed at ping; txPing
   * is left as it was.
   */
  function Begin(st: State): (r: State)
    ensures r.txPing == st.txPing
    ensures r.source == Ping
    ensures Buffer(r, Ping) == Blank() && Buffer(r, Pong) == Blank()
  {
    State(st.txPing, Ping, Blank(), Blank())
  }

  /**
   * The first half of setXY (lines 292-341): the frame for (x, y) goes into
   * the buffer bit 0 does not name; the flags, the channel and the buffer
   * named as being in transmission are untouched.
   */
  function WriteFrame(st: State, x: u16, y: u16): (r: State)
    ensures r.txPing == st.txPing && r.source == st.source
    ensures Buffer(r, WriteTarget(st.txPing)) == FrameEntries(x, y)
    ensures Buffer(r, TxSlot(st.txPing)) == Buffer(st, TxSlot(st.txPing))
  {
    if WriteTarget(st.txPing) == Ping then st.(ping := FrameEntries(x, y))
    else st.(pong := FrameEntries(x, y))
  }

  /**
   * The second half of setXY (lines 343-346), with interrupts masked: the
   * buffer just written becomes the one bit 0 names, and bit 1 announces it;
   * no other bit, buffer or the channel changes.
   */
  function Publish(st: State): (r: State)
    ensures Pending(r.txPing)
    ensures TxSlot(r.txPing) == WriteTarget(st.txPing)
    ensures r.txPing & 0xFC == st.txPing & 0xFC
    ensures r.source == st.source && r.ping == st.ping && r.pong == st.pong
  {
    st.(txPing := (st.txPing ^ 1) | 2)
  }

  /**
   * isr() (lines 224-233): with bit 1 set, clear it and point the channel at
   * the buffer bit 0 names; with bit 1 clear, change nothing, so the channel
   * streams the same buffer again.  Bit 0 and the buffers never change.
   */
  function Interrupt(st: State): (r: State)
    ensures !Pending(r.txPing)
    ensures TxSlot(r.txPing) == TxSlot(st.txPing)
    ensures r.txPing & 0xFC == st.txPing & 0xFC
    ensures r.ping == st.ping && r.pong == st.pong
    ensures Pending(st.txPing) ==> r.source == TxSlot(st.txPing)
    ensures !Pending(st.txPing) ==> r == st
  {
    if Pending(st.txPing) then
      var t := st.txPing & 0xFD;
      st.(txPing := t, source := TxSlot(t))
    else st
  }

  /**
   * stat() (lines 257-261): report txPing as it was, then clear bit 7 and
   * nothing else.
   */
  function Stat(st: State): (res: (bv8, State))
    ensures res.0 == st.txPing
    ensures res.1.txPing & 0x80 == 0 && res.1.txPing & 0x7F == st.txPing & 0x7F
    ensures res.1.source == st.source && res.1.ping == st.ping && res.1.pong == st.pong
  {
    (st.txPing, st.(txPing := st.txPing & 0x7F))
  }

  /**
   * The handoff invariant: only bits 0 and 1 of txPing are ever set, and the
   * channel streams the buffer bit 0 names exactly when no frame is pending.
   */
  predicate Protocol(st: State)
  {
    st.txPing & 0xFC == 0 && (st.source == TxSlot(st.txPing) <==> !Pending(st.txPing))
  }

  /** The state after the constructor and begin(). */
  function Init(): (r: State)
    ensures Protocol(r) && !Pending(r.txPing)
    ensures r.source == Ping && Buffer(r, Ping) == Blank() && Buffer(r, Pong) == Blank()
  {
    State(0, Ping, Blank(), Blank())
  }

  /** begin() after the constructor (txPing == 0) gives the initial state. */
  lemma ConstructThenBegin(st: State)
    requires st.txPing == 0
    ensures Begin(st) == Init()
  {
  }

  /**
   * With no frame pending, setXY writes the buffer the channel is not
   * streaming, and an interrupt at any point of the write changes nothing.
   */
  lemma IdleWriteSafe(st: State, x: u16, y: u16)
    requires Protocol(st) && !Pending(st.txPing)
    ensures WriteTarget(st.txPing) != st.source
    ensures Interrupt(st) == st && Interrupt(WriteFrame(st, x, y)) == WriteFrame(st, x, y)
  {
  }

  /**
   * setXY with no frame pending keeps the invariant and leaves the new frame
   * pending, while the channel keeps streaming the buffer it had.
   */
  lemma SetXYKeepsProtocol(st: State, x: u16, y: u16)
    requires Protocol(st) && !Pending(st.txPing)
    ensures Protocol(Publish(WriteFrame(st, x, y)))
    ensures Pending(Publish(WriteFrame(st, x, y)).txPing)
    ensures Publish(WriteFrame(st, x, y)).source == st.source
  {
    var w := WriteFrame(st, x, y);
    assert TxSlot(Publish(w).txPing) == WriteTarget(st.txPing);
  }

  /** Every interrupt keeps the invariant and leaves nothing pending. */
  lemma InterruptKeepsProtocol(st: State)
    requires Protocol(st)
    ensures Protocol(Interrupt(st)) && !Pending(Interrupt(st).txPing)
    ensures Interrupt(st).source == TxSlot(st.txPing)
  {
  }

  /**
   * One paced cycle: setXY, then the completion interrupt.  The channel then
   * streams the buffer setXY wrote, which holds the frame of (x, y); further
   * interrupts without a new setXY keep streaming that same frame.
   */
  lemma AdoptedAtNextIsr(st: State, x: u16, y: u16)
    requires Protocol(st) && !Pending(st.txPing)
    ensures Protocol(Interrupt(Publish(WriteFrame(st, x, y))))
    ensures Interrupt(Publish(WriteFrame(st, x, y))).source == WriteTarget(st.txPing)
    ensures Buffer(Interrupt(Publish(WriteFrame(st, x, y))), WriteTarget(st.txPing)) == FrameEntries(x, y)
    ensures Interrupt(Interrupt(Publish(WriteFrame(st, x, y)))) == Interrupt(Publish(WriteFrame(st, x, y)))
  {
    SetXYKeepsProtocol(st, x, y);
    InterruptKeepsProtocol(Publish(WriteFrame(st, x, y)));
  }

  /**
   * The hazard: a second setXY before the interrupt has adopted the first
   * one writes into the very buffer the channel is streaming, and the
   * following interrupt leaves the channel on that buffer.
   */
  lemma OverrunHazard(st: State, x: u16, y: u16)
    requires Protocol(st) && Pending(st.txPing)
    ensures WriteTarget(st.txPing) == st.source
    ensures Interrupt(Publish(WriteFrame(st, x, y))).source == st.source
    ensures Buffer(Interrupt(Publish(WriteFrame(st, x, y))), st.source) == FrameEntries(x, y)
  {
  }

  /**
   * Two setXY calls straight after begin(): the second one overwrites ping,
   * which the channel is streaming, and after the interrupt the channel
   * stays on ping, so the first frame (left in pong) is never streamed.
   */
  lemma DoubleSetXY(x1: u16, y1: u16, x2: u16, y2: u16)
    ensures Publish(WriteFrame(Init(), x1, y1)).source == Ping
    ensures WriteTarget(Publish(WriteFrame(Init(), x1, y1)).txPing) == Ping
    ensures Interrupt(Publish(WriteFrame(Publish(WriteFrame(Init(), x1, y1)), x2, y2))).source == Ping
    ensures Buffer(Interrupt(Publish(WriteFrame(Publish(WriteFrame(Init(), x1, y1)), x2, y2))), Ping) == FrameEntries(x2, y2)
    ensures Buffer(Interrupt(Publish(WriteFrame(Publish(WriteFrame(Init(), x1, y1)), x2, y2))), Pong) == FrameEntries(x1, y1)
  {
    var s1 := Publish(WriteFrame(Init(), x1, y1));
    assert s1.txPing == 3;
    var s2 := Publish(WriteFrame(s1, x2, y2));
    assert s2.txPing == 2;
  }

  /** stat() twice: the second call reports the cleared flags and changes nothing. */
  lemma StatIdempotent(st: State)
    ensures Stat(Stat(st).1) == (Stat(st).1.txPing, Stat(st).1)
  {
  }

  /** Under the invariant bit 7 is clear, so stat() changes nothing. */
  lemma StatUnderProtocol(st: State)
    requires Protocol(st)
    ensures Stat(st) == (st.txPing, st)
    ensures Stat(st).0 & 0x80 == 0
  {
  }

  // ---------------------------------------------------------------------
  // Traces: sequences of driver calls and interrupts.
  // ---------------------------------------------------------------------

  /**
   * A driver call or a completion interrupt.  In SetXYCall, isrInside says
   * that a completion interrupt lands while setXY writes its frame, before
   * it publishes it.
   */
  datatype Event = SetXYCall(x: u16, y: u16, isrInside: bool) | IsrCall | StatCall

  /**
   * The state after one event.  After a setXY call, whether or not an
   * interrupt landed during its write, its frame is pending in the buffer
   * bit 0 names; after an interrupt nothing is pending; stat() moves no
   * buffer and changes no contents.
   */
  function Step(st: State, e: Event): (r: State)
    ensures e.SetXYCall? ==> Pending(r.txPing) && Buffer(r, TxSlot(r.txPing)) == FrameEntries(e.x, e.y)
    ensures e.IsrCall? ==> !Pending(r.txPing)
    ensures e.StatCall? ==> r.source == st.source && r.ping == st.ping && r.pong == st.pong
  {
    match e
    case SetXYCall(x, y, inside) =>
      var w := WriteFrame(st, x, y);
      Publish(if inside then Interrupt(w) else w)
    case IsrCall => Interrupt(st)
    case StatCall => Stat(st).1
  }

  /**
   * An event is safe when no write lands in the buffer the channel streams:
   * setXY's target differs from the channel's buffer when it starts writing,
   * and, if an interrupt lands during the write, after that interrupt too.
   */
  predicate SafeStep(st: State, e: Event)
  {
    match e
    case SetXYCall(_, _, inside) =>
      WriteTarget(st.txPing) != st.source
      && (inside ==> WriteTarget(st.txPing) != Interrupt(st).source)
    case _ => true
  }

  /** The state after a sequence of events. */
  function Run(st: State, es: seq<Event>): State
    decreases |es|
  {
    if es == [] then st else Run(Step(st, es[0]), es[1..])
  }

  /** Every event of the sequence is safe in the state it meets. */
  predicate AllSafe(st: State, es: seq<Event>)
    decreases |es|
  {
    es == [] || (SafeStep(st, es[0]) && AllSafe(Step(st, es[0]), es[1..]))
  }

  /**
   * The usage rule "at most one setXY between two completion interrupts",
   * read off the sequence alone; published says a setXY has happened since
   * the last interrupt.
   */
  predicate Paced(es: seq<Event>, published: bool)
    decreases |es|
  {
    es == [] ||
    match es[0]
    case SetXYCall(_, _, _) => !published && Paced(es[1..], true)
    case IsrCall => Paced(es[1..], false)
    case StatCall => Paced(es[1..], published)
  }

  /** A paced event keeps the invariant, and bit 1 tracks the published flag. */
  lemma StepKeepsProtocol(st: State, e: Event)
    requires Protocol(st)
    requires e.SetXYCall? ==> !Pending(st.txPing)
    ensures Protocol(Step(st, e))
    ensures Pending(Step(st, e).txPing) == match e
      case SetXYCall(_, _, _) => true
      case IsrCall => false
      case StatCall => Pending(st.txPing)
  {
    match e
    case SetXYCall(x, y, inside) =>
      IdleWriteSafe(st, x, y);
      SetXYKeepsProtocol(st, x, y);
    case IsrCall =>
      InterruptKeepsProtocol(st);
    case StatCall =>
      StatUnderProtocol(st);
  }

  /**
   * From a state that keeps the invariant, with bit 1 matching the published
   * flag, a sequence of events is safe exactly when it is paced.
   */
  lemma {:induction false} PacedIffSafe(st: State, es: seq<Event>, published: bool)
    requires Protocol(st) && published == Pending(st.txPing)
    ensures AllSafe(st, es) <==> Paced(es, published)
    decreases |es|
  {
    if es != [] {
      var e := es[0];
      if e.SetXYCall? && published {
        OverrunHazard(st, e.x, e.y);
        assert !SafeStep(st, e);
      } else {
        if e.SetXYCall? {
          IdleWriteSafe(st, e.x, e.y);
        }
        StepKeepsProtocol(st, e);
        PacedIffSafe(Step(st, e), es[1..], Pending(Step(st, e).txPing));
      }
    }
  }

  /**
   * From the state after begin(), the driver never writes into the buffer
   * the channel streams if and only if setXY is called at most once between
   * two completion interrupts.
   */
  lemma InitSafeIffPaced(es: seq<Event>)
    ensures AllSafe(Init(), es) <==> Paced(es, false)
  {
    PacedIffSafe(Init(), es, false);
  }

  /** A paced sequence of events keeps the invariant to its end. */
  lemma {:induction false} PacedRunKeepsProtocol(st: State, es: seq<Event>, published: bool)
    requires Protocol(st) && published == Pending(st.txPing)
    requires Paced(es, published)
    ensures Protocol(Run(st, es))
    decreases |es|
  {
    if es != [] {
      StepKeepsProtocol(st, es[0]);
      PacedRunKeepsProtocol(Step(st, es[0]), es[1..], Pending(Step(st, es[0]).txPing));
    }
  }
}
