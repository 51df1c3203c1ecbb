/**
 * The XY2-100 frame encoder of XY2_100::setXY.
 *
 * A sample (X, Y) of two unsigned 16-bit values becomes two 20-bit channel
 * fields (header, data, parity), and the two fields are sent together, bit
 * position 19 first, as one entry per position taken from a 4-entry lookup
 * table indexed by the pair of channel bits at that position.  The table for
 * the last position (0) drives the frame-sync line low; the other table keeps
 * it high.  The emission loop visits the positions two at a time; how it
 * packs a pair into a machine word is not modelled (see README), and a
 * buffer here is the sequence of the 20 entries the loop selects.
 *
 * Channel fields are uint32 values in the driver that never exceed 2^18, so
 * they are modelled as exact non-negative integers: no wrap-around can occur,
 * `f & (1 << i)` is bit i of f, and `((X << 1) | 0x20000) & 0x3fffe` is
 * 2 * X + 0x20000 (bit 17 of 2 * X is clear and the mask removes nothing).
 *
 * The decoder at the end is the receiver's view of a frame and the partner of
 * the encoder: it accepts exactly the frames the encoder produces and
 * recovers the sample from them.
 */
module Encoder {

  newtype u8 = x: int | 0 <= x < 0x100
  newtype u16 = x: int | 0 <= x < 0x1_0000

  datatype Option<T> = None | Some(value: T)

  /** Serial bit positions per frame: bits 19..0 of each channel field. */
  const FrameBits: nat := 20

  /**
   * Words stored per frame, one per pair of bit positions.  DMA_MEM_SIZE is
   * 10 on Teensy 3.x and LC (line 46) and 20 on Teensy 4.1 (line 38), so a
   * frame fits the buffer on both.
   */
  const FrameWords: nat := 10

  /** The header marker, bit 17 of a channel field. */
  const Header: nat := 0x20000

  /** Table entries for the positions where frame sync stays high (19..1). */
  const Sync1: seq<u16> := [0xd2c3, 0x9687, 0x5a4b, 0x1e0f]

  /** Table entries for the one position where frame sync goes low (0). */
  const Sync0: seq<u16> := [0xf0e1, 0xb4a5, 0x7869, 0x3c2d]

  /** 2 to the power k. */
  function Pow2(k: nat): (p: nat)
    ensures p >= 1
  {
    if k == 0 then 1 else 2 * Pow2(k - 1)
  }

  /** The powers of two this model needs, evaluated. */
  lemma Pow2Values()
    ensures Pow2(16) == 0x1_0000 && Pow2(17) == 0x2_0000 && Pow2(18) == 0x4_0000 && Pow2(20) == 0x10_0000
  {
    assert Pow2(2) == 4;
    assert Pow2(4) == 16;
    assert Pow2(6) == 64;
    assert Pow2(8) == 256;
    assert Pow2(10) == 1024;
    assert Pow2(12) == 4096;
    assert Pow2(14) == 16384;
  }

  /**
   * Bit i of f, the test `f & (1 << i) != 0` of the driver; a set bit i
   * means f is at least 2^i.  BitValue relates it to f / 2^i.
   */
  function Bit(f: nat, i: nat): (b: bool)
    ensures b ==> Pow2(i) <= f
  {
    if i == 0 then f % 2 == 1 else Bit(f / 2, i - 1)
  }

  /** Multiplication by a natural keeps the order. */
  lemma MulMono(m: nat, a: nat, b: nat)
    requires a <= b
    ensures m * a <= m * b
  {
    assert m * b == m * a + m * (b - a);
  }

  /** A quotient is determined by any decomposition with a remainder below the divisor. */
  lemma DivUnique(f: nat, m: nat, q: nat, r: nat)
    requires m > 0 && f == m * q + r && r < m
    ensures f / m == q
  {
    var q', r' := f / m, f % m;
    assert f == m * q' + r' && r' < m;
    if q' < q {
      MulMono(m, q' + 1, q);
    } else if q' > q {
      MulMono(m, q + 1, q');
    }
  }

  /** Halving f halves its quotient by any divisor. */
  lemma HalfDiv(f: nat, a: nat)
    requires a >= 1
    ensures (f / 2) / a == f / (2 * a)
  {
    var q, r := (f / 2) / a, (f / 2) % a;
    assert f / 2 == a * q + r;
    assert f == (2 * a) * q + (2 * r + f % 2);
    DivUnique(f, 2 * a, q, 2 * r + f % 2);
  }

  /** Bit i of f is set exactly when f / 2^i is odd. */
  lemma {:induction false} BitValue(f: nat, i: nat)
    ensures Bit(f, i) <==> (f / Pow2(i)) % 2 == 1
  {
    if i > 0 {
      BitValue(f / 2, i - 1);
      HalfDiv(f, Pow2(i - 1));
    }
  }

  /** The driver's `f | 1`. */
  function Or1(f: nat): (r: nat)
    ensures r % 2 == 1 && r / 2 == f / 2
  {
    if f % 2 == 1 then f else f + 1
  }

  /** Number of set bits among positions 0 .. n-1 of f. */
  function PopCount(f: nat, n: nat): (c: nat)
    ensures c <= n
  {
    if n == 0 then 0 else PopCount(f, n - 1) + (if Bit(f, n - 1) then 1 else 0)
  }

  /** The sample bits 16..1 of a field, most significant at bit 16. */
  function Data(f: nat): u16
  {
    ((f / 2) % 0x1_0000) as u16
  }

  /** A value in [2^k, 2^(k+1)) has bit k set. */
  lemma {:induction false} BitTop(f: nat, k: nat)
    requires Pow2(k) <= f < 2 * Pow2(k)
    ensures Bit(f, k)
  {
    if k > 0 {
      BitTop(f / 2, k - 1);
    }
  }

  /** A value below 2^k has every bit from k upward clear. */
  lemma {:induction false} BitAbove(f: nat, k: nat, i: nat)
    requires f < Pow2(k) && k <= i
    ensures !Bit(f, i)
  {
    if i > 0 {
      BitAbove(f / 2, if k == 0 then 0 else k - 1, i - 1);
    }
  }

  /**
   * The channel field before parity: header marker in bit 17, the sample in
   * bits 16..1, and bits 0, 18 and 19 clear.
   */
  function ChannelField(v: u16): (f: nat)
    ensures Bit(f, 17) && !Bit(f, 0) && !Bit(f, 18) && !Bit(f, 19)
    ensures Header <= f < 2 * Header
    ensures Data(f) == v
  {
    var f := 2 * (v as nat) + Header;
    Pow2Values();
    BitTop(f, 17);
    BitAbove(f, 18, 18);
    BitAbove(f, 18, 19);
    f
  }

  /** Setting a clear bit 0 adds one to the count of set bits. */
  lemma {:induction false} PopCountSetBit0(f: nat, n: nat)
    requires 1 <= n && !Bit(f, 0)
    ensures PopCount(Or1(f), n) == PopCount(f, n) + 1
  {
    if n > 1 {
      PopCountSetBit0(f, n - 1);
      assert Bit(Or1(f), n - 1) == Bit(f, n - 1);
    }
  }

  /**
   * The parity step: bit 0 is set exactly when the count of set bits over
   * positions 0..19 is odd, so that the count becomes even; no other bit
   * changes.
   */
  function WithParity(f: nat): (r: nat)
    requires !Bit(f, 0)
    ensures r == f || r == f + 1
    ensures PopCount(r, FrameBits) % 2 == 0
  {
    PopCountSetBit0(f, FrameBits);
    if PopCount(f, FrameBits) % 2 == 1 then Or1(f) else f
  }

  /** A field with bit 0 clear has exactly one completion with even parity. */
  lemma ParityUnique(base: nat, f: nat)
    requires !Bit(base, 0)
    requires f == base || f == base + 1
    requires PopCount(f, FrameBits) % 2 == 0
    ensures f == WithParity(base)
  {
    PopCountSetBit0(base, FrameBits);
  }

  /** The complete 20-bit channel field sent for sample value v. */
  function Field(v: u16): (f: nat)
    ensures Header <= f < 2 * Header
    ensures Data(f) == v
    ensures PopCount(f, FrameBits) % 2 == 0
  {
    WithParity(ChannelField(v))
  }

  /** Counting from bit 0 upward: bit 0, then the bits of f / 2. */
  lemma {:induction false} PopCountHalf(f: nat, n: nat)
    requires n >= 1
    ensures PopCount(f, n) == (if Bit(f, 0) then 1 else 0) + PopCount(f / 2, n - 1)
  {
    if n > 1 {
      PopCountHalf(f, n - 1);
    }
  }

  /** Adding 2^k does not change the bits below k. */
  lemma {:induction false} BitBelowAdd(v: nat, k: nat, i: nat)
    requires i < k
    ensures Bit(v + Pow2(k), i) == Bit(v, i)
  {
    if i > 0 {
      assert (v + Pow2(k)) / 2 == v / 2 + Pow2(k - 1);
      BitBelowAdd(v / 2, k - 1, i - 1);
    }
  }

  /** Adding 2^k does not change the count of the bits below k. */
  lemma {:induction false} PopCountBelowAdd(v: nat, k: nat, n: nat)
    requires n <= k
    ensures PopCount(v + Pow2(k), n) == PopCount(v, n)
  {
    if n > 0 {
      PopCountBelowAdd(v, k, n - 1);
      BitBelowAdd(v, k, n - 1);
    }
  }

  /**
   * The count the parity loop sees in a channel field is the header bit plus
   * the set bits of the sample, so bit 0 ends up set exactly when the sample
   * has an even number of set bits.
   */
  lemma ChannelFieldCount(v: u16)
    ensures PopCount(ChannelField(v), FrameBits) == PopCount(v as nat, 16) + 1
    ensures Field(v) % 2 == 1 <==> PopCount(v as nat, 16) % 2 == 0
  {
    var g := v as nat + Pow2(16);
    Pow2Values();
    PopCountHalf(ChannelField(v), FrameBits);
    assert ChannelField(v) / 2 == g;
    PopCountBelowAdd(v as nat, 16, 16);
    BitTop(g, 16);
    BitAbove(g, 17, 17);
    BitAbove(g, 17, 18);
    assert PopCount(g, 17) == PopCount(g, 16) + 1;
    assert PopCount(g, 18) == PopCount(g, 17);
    assert PopCount(g, 19) == PopCount(g, 18);
  }

  /** No bit of zero is set. */
  lemma {:induction false} PopCountZero(n: nat)
    ensures PopCount(0, n) == 0
  {
    if n > 0 {
      PopCountZero(n - 1);
      BitAbove(0, 0, n - 1);
    }
  }

  /** Every bit of 2^k - 1 below k is set. */
  lemma {:induction false} PopCountOnes(k: nat)
    ensures PopCount(Pow2(k) - 1, k) == k
  {
    if k > 0 {
      PopCountHalf(Pow2(k) - 1, k);
      PopCountOnes(k - 1);
    }
  }

  /** The two boundary samples: 0 gives 0x20001 and 0xFFFF gives 0x3FFFF. */
  lemma FieldBoundaries()
    ensures Field(0) == 0x20001
    ensures Field(0xFFFF) == 0x3FFFF
  {
    Pow2Values();
    ChannelFieldCount(0);
    PopCountZero(16);
    ChannelFieldCount(0xFFFF);
    PopCountOnes(16);
  }

  /**
   * Index into a lookup table for bit position i: channel 1's bit in the low
   * bit and channel 2's bit in the high bit of the index.
   */
  function TableIndex(f1: nat, f2: nat, i: nat): (j: nat)
    ensures j < 4
    ensures j % 2 == 1 <==> Bit(f1, i)
    ensures j / 2 == 1 <==> Bit(f2, i)
  {
    (if Bit(f1, i) then 1 else 0) + (if Bit(f2, i) then 2 else 0)
  }

  /** The table used at bit position pos: Sync0 only for position 0. */
  function Table(pos: nat): (t: seq<u16>)
    ensures |t| == 4
    ensures t == Sync0 <==> pos == 0
    ensures pos != 0 ==> t == Sync1
  {
    if pos == 0 then Sync0 else Sync1
  }

  /**
   * The entry emitted for bit position pos of the two fields: a Sync0 entry
   * exactly at position 0 and a Sync1 entry everywhere else.
   */
  function Entry(f1: nat, f2: nat, pos: nat): (e: u16)
    ensures e in Table(pos)
    ensures e in Sync0 <==> pos == 0
    ensures e in Sync1 <==> pos != 0
  {
    TablesDistinct();
    Table(pos)[TableIndex(f1, f2, pos)]
  }

  /**
   * The entries emitted for two fields, most significant position first:
   * entry k is for bit position 19 - k.
   */
  function FrameOf(f1: nat, f2: nat): (s: seq<u16>)
    ensures |s| == FrameBits
  {
    seq(FrameBits, k requires 0 <= k < FrameBits => Entry(f1, f2, FrameBits - 1 - k))
  }

  /** The frame sent for sample (x, y). */
  function FrameEntries(x: u16, y: u16): (s: seq<u16>)
    ensures |s| == FrameBits
  {
    FrameOf(Field(x), Field(y))
  }

  /** The two tables have no entry in common and no repeated entry. */
  lemma TablesDistinct()
    ensures forall a, b :: 0 <= a < b < 4 ==> Sync1[a] != Sync1[b] && Sync0[a] != Sync0[b]
    ensures forall a, b :: 0 <= a < 4 && 0 <= b < 4 ==> Sync1[a] != Sync0[b]
  {
  }

  /**
   * Frame sync: every entry of a frame comes from Sync1 except the last one
   * (bit position 0), which comes from Sync0, and no Sync1 entry is a Sync0
   * entry, so the sync level is low at position 0 only.
   */
  lemma SyncPlacement(x: u16, y: u16, k: nat)
    requires k < FrameBits
    ensures k < FrameBits - 1 ==> FrameEntries(x, y)[k] in Sync1 && FrameEntries(x, y)[k] !in Sync0
    ensures k == FrameBits - 1 ==> FrameEntries(x, y)[k] in Sync0 && FrameEntries(x, y)[k] !in Sync1
  {
    var pos := FrameBits - 1 - k;
    var j := TableIndex(Field(x), Field(y), pos);
    assert FrameEntries(x, y)[k] == FrameOf(Field(x), Field(y))[k] == Entry(Field(x), Field(y), pos);
    TablesDistinct();
  }

  // ---------------------------------------------------------------------
  // Receiver side: the reference decoder.
  // ---------------------------------------------------------------------

  /** Position of e in a table, searching from index k. */
  function IndexFrom(t: seq<u16>, e: u16, k: nat): (r: Option<nat>)
    requires k <= |t|
    ensures r.Some? ==> k <= r.value < |t| && t[r.value] == e
    ensures r.None? ==> e !in t[k..]
    decreases |t| - k
  {
    if k == |t| then None
    else if t[k] == e then Some(k)
    else IndexFrom(t, e, k + 1)
  }

  /** The table index an entry for bit position pos stands for, if it is one. */
  function DecodeEntry(e: u16, pos: nat): (r: Option<nat>)
    ensures r.Some? ==> r.value < 4 && Table(pos)[r.value] == e
    ensures r.None? ==> e !in Table(pos)
  {
    IndexFrom(Table(pos), e, 0)
  }

  /** f shifted right by m positions. */
  function Shr(f: nat, m: nat): nat
  {
    if m == 0 then f else Shr(f, m - 1) / 2
  }

  /** One more bit appended below an accumulated field. */
  function Push(acc: nat, bit: bool): nat
  {
    2 * acc + (if bit then 1 else 0)
  }

  /**
   * The bits of both fields recovered from the first n entries of a frame:
   * entry k stands for position 19 - k, so the result holds positions
   * 19 .. 20 - n, shifted down to positions n - 1 .. 0.
   */
  function DecodeFields(s: seq<u16>, n: nat): Option<(nat, nat)>
    requires n <= |s| == FrameBits
  {
    if n == 0 then Some((0, 0))
    else match DecodeFields(s, n - 1)
      case None => None
      case Some((a, b)) =>
        match DecodeEntry(s[n - 1], FrameBits - n)
        case None => None
        case Some(j) => Some((Push(a, j % 2 == 1), Push(b, j / 2 == 1)))
  }

  /** A field a receiver accepts: header 001 in bits 19..17 and even parity. */
  predicate FieldOk(f: nat)
  {
    Header <= f < 2 * Header && PopCount(f, FrameBits) % 2 == 0
  }

  /** The sample a receiver reads from a frame, or None for a malformed frame. */
  function DecodeFrame(s: seq<u16>): Option<(u16, u16)>
  {
    if |s| != FrameBits then None
    else match DecodeFields(s, FrameBits)
      case None => None
      case Some((f1, f2)) =>
        if FieldOk(f1) && FieldOk(f2) then Some((Data(f1), Data(f2))) else None
  }

  /** Each entry of an encoded frame decodes to its own table index. */
  lemma DecodeEntryOf(f1: nat, f2: nat, pos: nat)
    ensures DecodeEntry(Entry(f1, f2, pos), pos) == Some(TableIndex(f1, f2, pos))
  {
    TablesDistinct();
  }

  /** Bit i of f shifted right by m is bit m + i of f. */
  lemma {:induction false} BitShr(f: nat, m: nat, i: nat)
    ensures Bit(Shr(f, m), i) == Bit(f, m + i)
  {
    if m > 0 {
      BitShr(f, m - 1, i + 1);
    }
  }

  /** Shifting f / 2 by m is shifting f by m + 1. */
  lemma {:induction false} ShrHalf(f: nat, m: nat)
    ensures Shr(f / 2, m) == Shr(f, m + 1)
  {
    if m > 0 {
      ShrHalf(f, m - 1);
    }
  }

  /** Shifting a value below 2^m right by m positions leaves nothing. */
  lemma {:induction false} ShrBelow(f: nat, m: nat)
    requires f < Pow2(m)
    ensures Shr(f, m) == 0
  {
    if m > 0 {
      ShrBelow(f / 2, m - 1);
      ShrHalf(f, m - 1);
    }
  }

  /** Pushing bit m of f below f shifted by m + 1 gives f shifted by m. */
  lemma ShiftInBit(f: nat, m: nat)
    ensures Push(Shr(f, m + 1), Bit(f, m)) == Shr(f, m)
  {
    BitShr(f, m, 0);
  }

  /** Decoding the first n entries of an encoded frame gives the top n bits of each field. */
  lemma {:induction false} DecodeFieldsComplete(f1: nat, f2: nat, n: nat)
    requires f1 < Pow2(FrameBits) && f2 < Pow2(FrameBits)
    requires n <= FrameBits
    ensures DecodeFields(FrameOf(f1, f2), n) == Some((Shr(f1, FrameBits - n), Shr(f2, FrameBits - n)))
  {
    if n == 0 {
      ShrBelow(f1, FrameBits);
      ShrBelow(f2, FrameBits);
    } else {
      var s := FrameOf(f1, f2);
      var pos := FrameBits - n;
      DecodeFieldsComplete(f1, f2, n - 1);
      DecodeEntryOf(f1, f2, pos);
      assert s[n - 1] == Entry(f1, f2, pos);
      ShiftInBit(f1, pos);
      ShiftInBit(f2, pos);
    }
  }

  /**
   * A successful decode of the first n entries explains every one of them:
   * entry k is the table entry for the decoded bits at its position.
   */
  lemma {:induction false} DecodeFieldsSound(s: seq<u16>, n: nat, a: nat, b: nat)
    requires n <= |s| == FrameBits
    requires DecodeFields(s, n) == Some((a, b))
    ensures forall k :: 0 <= k < n ==> s[k] == Table(FrameBits - 1 - k)[TableIndex(a, b, n - 1 - k)]
  {
    if n > 0 {
      var prev := DecodeFields(s, n - 1);
      var a0, b0 := prev.value.0, prev.value.1;
      DecodeFieldsSound(s, n - 1, a0, b0);
      var j := DecodeEntry(s[n - 1], FrameBits - n).value;
      assert a == Push(a0, j % 2 == 1) && b == Push(b0, j / 2 == 1);
      assert TableIndex(a, b, 0) == j;
      forall k | 0 <= k < n - 1
        ensures s[k] == Table(FrameBits - 1 - k)[TableIndex(a, b, n - 1 - k)]
      {
        var m := n - 1 - k;
        assert Bit(a, m) == Bit(a0, m - 1) && Bit(b, m) == Bit(b0, m - 1);
      }
    }
  }

  /** A field a receiver accepts is exactly the field the encoder builds for its data. */
  lemma FieldOkIsField(f: nat)
    requires FieldOk(f)
    ensures f == Field(Data(f))
  {
    var base := ChannelField(Data(f));
    assert f == base || f == base + 1;
    ParityUnique(base, f);
  }

  /** Round trip: the receiver reads back exactly the sample that was encoded. */
  lemma DecodeEncode(x: u16, y: u16)
    ensures DecodeFrame(FrameEntries(x, y)) == Some((x, y))
  {
    Pow2Values();
    DecodeFieldsComplete(Field(x), Field(y), FrameBits);
  }

  /** The receiver accepts nothing but encoded frames: decoding succeeds only on FrameEntries. */
  lemma EncodeDecode(s: seq<u16>, x: u16, y: u16)
    requires DecodeFrame(s) == Some((x, y))
    ensures s == FrameEntries(x, y)
  {
    var d := DecodeFields(s, FrameBits).value;
    var f1, f2 := d.0, d.1;
    DecodeFieldsSound(s, FrameBits, f1, f2);
    FieldOkIsField(f1);
    FieldOkIsField(f2);
    var e := FrameEntries(x, y);
    forall k | 0 <= k < FrameBits
      ensures s[k] == e[k]
    {
      assert e[k] == FrameOf(f1, f2)[k] == Entry(f1, f2, FrameBits - 1 - k);
    }
  }

  /** Encoding is injective: different samples give different frames. */
  lemma EncodeInjective(x1: u16, y1: u16, x2: u16, y2: u16)
    requires FrameEntries(x1, y1) == FrameEntries(x2, y2)
    ensures x1 == x2 && y1 == y2
  {
    DecodeEncode(x1, y1);
    DecodeEncode(x2, y2);
  }

  // ---------------------------------------------------------------------
  // The loops of setXY.
  // ---------------------------------------------------------------------

  /**
   * Lines 275-298 of setXY: build both channel fields, count their set bits
   * over positions 0..19 with two 8-bit counters, and set bit 0 of a field
   * whose count is odd.
   */
  method EncodeChannels(x: u16, y: u16) returns (ch1: nat, ch2: nat)
    ensures ch1 == Field(x) && ch2 == Field(y)
  {
    ch1 := ChannelField(x);
    ch2 := ChannelField(y);
    var parity1: u8 := 0;
    var parity2: u8 := 0;
    for i := 0 to FrameBits
      invariant parity1 as nat == PopCount(ch1, i)
      invariant parity2 as nat == PopCount(ch2, i)
    {
      if Bit(ch1, i) {
        parity1 := parity1 + 1;
      }
      if Bit(ch2, i) {
        parity2 := parity2 + 1;
      }
    }
    if parity1 % 2 == 1 {
      ch1 := Or1(ch1);
    }
    if parity2 % 2 == 1 {
      ch2 := Or1(ch2);
    }
  }

  /**
   * Lines 318-341 of setXY: walk bit positions 19 down to 0 two at a time,
   * select the table entry for each position, and advance the buffer pointer
   * once per pair.  The buffer receives the two selected entries of each
   * pair; how the driver packs them into one machine word is not modelled.
   * Returns the number of stores through the pointer.
   */
  method EmitFrame(ch1: nat, ch2: nat, p: array<u16>) returns (words: nat)
    requires p.Length == 2 * FrameWords
    modifies p
    ensures words == FrameWords
    ensures p[..] == FrameOf(ch1, ch2)
  {
    var i: int := FrameBits - 1;
    words := 0;
    while i >= 0
      invariant -1 <= i < FrameBits && i % 2 == 1
      invariant 2 * words == FrameBits - 1 - i
      invariant forall k :: 0 <= k < 2 * words ==> p[k] == FrameOf(ch1, ch2)[k]
    {
      var j := 0;
      if Bit(ch1, i) {
        j := 1;
      }
      if Bit(ch2, i) {
        j := j + 2;
      }
      assert j == TableIndex(ch1, ch2, i);
      assert FrameOf(ch1, ch2)[2 * words] == Entry(ch1, ch2, i);
      var first := Sync1[j];
      i := i - 1;
      j := 0;
      if Bit(ch1, i) {
        j := 1;
      }
      if Bit(ch2, i) {
        j := j + 2;
      }
      assert j == TableIndex(ch1, ch2, i);
      assert FrameOf(ch1, ch2)[2 * words + 1] == Entry(ch1, ch2, i);
      var second := if i != 0 then Sync1[j] else Sync0[j];
      assert words < FrameWords;
      p[2 * words], p[2 * words + 1] := first, second;
      words := words + 1;
      i := i - 1;
    }
    assert p[..] == FrameOf(ch1, ch2);
  }
}
